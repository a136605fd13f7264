# Mpay payment ledger and watcher: model and proofs

Mpay credits stablecoin transfers to merchant invoices. A Go watcher scans the chain
in block windows and posts decoded transfers to an API; the API keeps four tables
(invoices, chain events, payments, webhook deliveries) that background jobs move
forward: a processor credits pending events, a sweep expires and confirms invoices, a
dispatcher delivers webhooks, and a reconciliation job re-notifies merchants and undoes
payments that a chain reorganisation has removed.

No single function of the program establishes what makes this safe. That an invoice
is never credited twice, that a rollback always finds its way back, or that the sweep
never adds to an empty block number holds only because every kind of step keeps one
invariant over all four tables. This project states that invariant, proves that every
step keeps it in every interleaving, and derives from it what the program is for:
exactly-once crediting, conservation of money, order independence, what merchants are
told, and the behaviour of the watcher under any failures. A side module treats the
decimal codec of amounts.

## How the model is built

- A table is a sequence of rows; the row at position `r` has primary key `r + 1`.
  `Model.dfy` has the rows, `StateMachine.dfy` the status transitions, `Steps.dfy` what
  each operation does to the tables, as functions.
- `LedgerObject.dfy` is the ledger in the program's own shape: a class whose methods update
  the tables in place, loop over query answers, break off, and roll a transaction back.
  Every method is proved to compute the step function that its contract names.
  `WatcherObject.dfy` does the same for the watcher loop over a ledger object; its methods
  return, as a ghost result, the run of the transition system of `System.dfy` that they
  performed.
- `Invariant.dfy` holds the invariant. `MoneySteps.dfy` and `HookSteps.dfy` prove it for
  every single change of a row, `LedgerSteps.dfy` for every operation, `Runs.dfy` for
  every run.
- `Columns.dfy` states each ledger operation once more on columns, codes and times, naming
  none of the conditions that the steps are defined with: when a receipt matches, which replies
  deliver, what a new row holds. `EndToEnd.dfy` follows a log from the chain to the
  credited invoice in the same terms.
- `Money.dfy` has the codec on digits and exponents, `MoneyTexts.dfy` the texts that spell
  a number, `MoneyExactness.dfy` and `MoneyRoundTrip.dfy` what is exact about it.
- One commit is one step: per event in the processor, per delivery in the dispatcher,
  per pass in sweep and reconcile, per request in the API. Steps are applied one at a
  time, which is the program's own assumption (app/processor.py:70-73). An error inside a
  step leaves the tables as they were before it.
- What the program does not control is a parameter of the step and hence arbitrary: the
  order of rows where a query has no ORDER BY, receipts and chain height (or their
  absence), HTTP outcomes, whether a POST or its reply got lost, whether a checkpoint
  could be saved, and time, which never runs backwards. Settings are fixed but arbitrary.
  `sign`, which stands for HMAC-SHA256, is an arbitrary function.
- `Delivery.prev` (the attempt that a retry repeats), `Sys.origin`, `Sys.accepted` and
  `Sys.unwrapped` are history variables: the program does not store them and no step
  reads them.

## What differs from the documentation

- app/money.py:18-22 and its tests present the parser as exact. It is so exactly under
  the condition of `MoneyExactness.ParserExactIff`, which is stated on the digits of the
  amount: it errs when a digit past the 28th is not zero and the amount lies within half
  a unit of the last digit kept from a whole number of base units. A text with 28
  decimals is accepted as one whole unit (`MoneyWitness.TwentyNineDigitText`), and a
  positive amount below the context's smallest exponent as zero base units
  (`MoneyWitness.TinyText`; the database then refuses the row, and the caller sees a
  server error). `NaN`, `Infinity` and overflowing amounts escape the handler at
  app/routes.py:279 as server errors too.
- app/reconciliation.py:6-11 and docs/webhooks.md:58 say that an unnotified confirmation
  is retried until it succeeds. That holds exactly while the invoice has no delivered
  confirmation: after a pass under its cap a confirmed invoice has a pending
  confirmation if and only if it had one before or had no delivered one
  (`RescueExactness.RescuePromiseIff`). After a rollback a confirmation of the earlier
  payment, delivered late, counts for the later one
  (`RescueWitness.RescueCanBeSuppressed` is a reachable state).
- app/reconciliation.py:188-189 says that the payable amount of a rolled-back invoice
  simply re-arms. It does so exactly if no other invoice that is open at the end of the
  pass has the same payable amount. Otherwise the unique index aborts the whole pass,
  its rescues and its other rollbacks included (`CollisionWitness.PassIsLostIff`). Through
  any run, every later pass that misses the same payment inside the window is lost too,
  until the other invoice is no longer open or the paid one is settled
  (`CollisionWitness.BlockedUntilReleased`). This can happen, and the blocked rollback
  does not stop the invoice from being confirmed and settled on the payment that the
  chain has lost: `CollisionWitness.RearmingCanFail` and
  `CollisionWitness.BlockedInvoiceSettles` give the reachable states.
- app/webhooks.py:3 lists `invoice.detected`; nothing emits it. docs/webhooks.md:57 lists a
  wait of 32 seconds; with the default of 5 attempts the last wait is 16 seconds.
- The handler at app/processor.py:112-118, with its comment on expired invoices, is never
  reached: an expired invoice is not matched, and no transition of a credit is illegal
  (`LedgerSteps.ProcessKeeps`).

## Model

| member | source | states |
|---|---|---|
| StateMachine.RollBackReachesAwaiting | app/reconciliation.py:190-196 | the rollback walk ends in AWAITING_PAYMENT from exactly the four statuses that can get there; from any other it raises the missing-key error, never an illegal transition |
| StateMachine.TerminalStatuses | app/state_machine.py:36-45 | SETTLED and EXPIRED, and only they, have no transition to another status |
| StateMachine.NineEdges | app/state_machine.py:36-62 | the whole transition table, edge by edge: the nine moves that succeed besides staying put, and no others |
| LedgerObject.Ledger.Transition | app/state_machine.py:48-62 | moves the invoice if the table allows it, is a no-op on the same status, and otherwise reports the illegal pair and changes nothing |
| LedgerObject.Ledger.Enqueue | app/webhooks.py:108-127 | appends one signed first attempt that is due at once; nothing for an unknown merchant |
| LedgerObject.Ledger.IngestEvents | app/routes.py:427-472 | the loop's table and reply counts are those of the ingest fold; an invalid batch stores nothing |
| LedgerObject.Ledger.CreateInvoice | app/routes.py:259-321 | authorisation, replay, bad amount, server error, conflict or a new open row, in that order; a conflict restores the tables (the outcomes and the row on columns: `Columns.ReplayIff`, `Columns.AmountIsChecked`, `Columns.CreatedColumns`) |
| LedgerObject.Ledger.ProcessEvent | app/processor.py:61-101 | the in-place credit computes the credit step, and fails where a transition or the payments key does |
| LedgerObject.Ledger.RunPending | app/processor.py:104-120 | one commit per event; an error other than an illegal transition stops the pass with the earlier commits kept |
| LedgerObject.Ledger.ExpireDue | app/confirmations.py:54-64 | the expiry loop |
| LedgerObject.Ledger.ConfirmDeep | app/confirmations.py:66-81 | the confirmation loop, with the error that a null block would raise |
| LedgerObject.Ledger.Sweep | app/confirmations.py:46-84 | a pass is one transaction: both loops, or the tables as before |
| LedgerObject.Ledger.DispatchOne | app/webhooks.py:159-225 | the outcome of one attempt: delivered (and settled), failed with a retry row, or failed for good (which reply leads to which: `Columns.ReplyDecides`, `Columns.RetriesExactly`) |
| LedgerObject.Ledger.DispatchDue | app/webhooks.py:130-229 | the first fifty due rows in order, one commit each; returns exactly the rows it made delivered |
| LedgerObject.Ledger.RescueStuck | app/reconciliation.py:79-112 | the rescue loop with its cap, which ends it early |
| LedgerObject.Ledger.ApplyReorg | app/reconciliation.py:161-202 | the rollback loop and the resets behind it compute the rollback step |
| LedgerObject.Ledger.CrosscheckPayments | app/reconciliation.py:211-253 | the loop checks exactly the payments before the first RPC failure and returns their statistics (which of them are orphaned: `Columns.OrphansExactly`) |
| LedgerObject.Ledger.Reconcile | app/reconciliation.py:256-272 | a pass is one transaction: rescues and rollbacks together, or the tables as before |
| Steps.FindMatchIsLowest | app/processor.py:48-58 | the matching query returns the lowest matching row, and none only if there is none |
| LedgerSteps.ProcessKeeps | app/processor.py:61-118 | a credit keeps the invariant and raises nothing: no illegal transition, so the handler for one is dead, and no second payment for its key |
| Columns.CreditsExactly | app/processor.py:48-99 | in every state with the invariant a pending event credits an invoice exactly if that is open, has the address the event pays to and is payable with its amount; it is then paid in full at the block of the event, and the payment repeats the event; with no match the event is skipped |
| MoneySteps.PaymentKeyIsFree | app/models.py:180-184 | the key of a pending event is never among the payments |
| LedgerSteps.SweepExact | app/confirmations.py:54-81 | in any row order a sweep never raises, expires exactly the open invoices that are due, confirms exactly those deep enough, with confirmed block = detected block + threshold - 1, and leaves all others alone |
| Columns.ExpiresExactly | app/confirmations.py:60-64 | over all kinds of steps: an invoice expires exactly in a sweep in which it is open and its time has come |
| Columns.LivesItsTime | app/routes.py:296 | in no run is an invoice expired before the time of its creation plus the time to live |
| Columns.ConfirmsExactly | app/confirmations.py:66-81 | a confirming invoice is confirmed exactly if the head is known and at least the threshold past its block, and is otherwise unchanged |
| LedgerSteps.DispatchKeeps | app/webhooks.py:158-225 | an attempt of a due row keeps the invariant and never raises |
| Columns.ReplyDecides | app/webhooks.py:166-204 | an attempted row is delivered exactly on a reply with a code from 200 to 299 to a merchant with an endpoint, and failed otherwise; no other old row changes |
| Columns.SettlesExactly | app/webhooks.py:197-201 | an attempt changes an invoice exactly if such a reply takes the confirmation of that confirmed invoice, and then settles it |
| Columns.RetriesExactly | app/webhooks.py:202-219 | a failed attempt gets a retry exactly if the endpoint was called and attempts are left: the same message, the next number, due base * 2^(n-1) later up to the cap |
| Columns.TakesFirstFifty | app/webhooks.py:138-151 | a row is taken on in a tick exactly if it is pending, its time has come (or it has none) and fewer than fifty such rows lie before it |
| Columns.EnqueuedColumns | app/webhooks.py:88-127 | every column and payload field of an enqueued message |
| LedgerSteps.ApplyReorgKeeps | app/reconciliation.py:161-202 | a rollback fails only on the unique index over open invoices; otherwise it orphans payment and event, reopens the invoice unless it is settled, and keeps the invariant |
| Runs.StepKeeps | app/reconciliation.py:173-202 | every step keeps the invariant and the history of rows; only a reconcile pass can raise at all, and then only on the unique index |
| Runs.ReachableInv | app/processor.py:70-99 | the invariant over all four tables holds after every run in every interleaving |
| Runs.RunKeeps | app/models.py:194-198 | along every run nothing is deleted, audit columns never change, and terminal invoices, orphaned payments and finished deliveries stay as they are |
| Conservation.ReachableInvoice | app/models.py:114-129 | in every reachable state: five statuses; 0 live payments when open or expired, 1 when confirming or confirmed, at most 1 when settled; the paid amount and both block columns follow from the status and the live payment |
| Conservation.OnePaymentPerAppliedEvent | app/models.py:176-198 | an event has exactly one payment if it is processed or orphaned and none otherwise; the payment is marked orphaned exactly when the event is |
| Conservation.Conserved | app/processor.py:83-99 | the credited total equals the total of processed events plus what settled invoices keep after their payment left the chain |
| Conservation.GroupsPartition | app/models.py:187-188 | adding up live payments by any key loses and doubles nothing (the double counting behind conservation) |
| Confluence.RunPendingExact | app/processor.py:104-120 | in any order exactly the open invoices that one of the events pays are credited, in full and once, and credited + skipped = number of events |
| Confluence.Confluent | app/processor.py:106 | two orders of the same query answer give every invoice the same status and paid amount, and the same two counts |
| Confluence.OnlyTwinsDiffer | app/processor.py:48-58 | an event that shares address and amount with no other pending event ends alike in every order |
| Confluence.PendingFalls | app/processor.py:106 | a pass leaves exactly min(limit, n) fewer events pending |
| Lifecycle.PayeeIsUnique | app/processor.py:44-58 | in every reachable state an event pays at most one open invoice, so the ordering of the query is redundant |
| Lifecycle.CreateConflictIff | app/routes.py:301-320 | an authorised non-replay request for a positive amount is refused exactly when some open invoice asked for as much more as it is rows older, and then changes nothing; otherwise it becomes the next row (`Columns.CreatedColumns` gives its columns) |
| Columns.CreatedColumns | app/routes.py:282-311 | every column of a new row: requested as parsed and positive, payable = requested + row number, nothing paid, open, watched address in lower case, expiring at the present time plus the time to live |
| Columns.ReplayIff | app/routes.py:267-275 | a request is a replay exactly if its merchant has an invoice with its non-empty key, returns such an invoice, and changes nothing whatever its amount |
| Columns.UnauthorisedChangesNothing | app/routes.py:259-266 | a request is refused as unauthorised exactly if its key is not valid or its merchant unknown, and then changes nothing |
| Columns.AmountIsChecked | app/routes.py:277-280 | beyond a replay, the amount is refused exactly if the parser refuses it, and a server error arises exactly if the parser escapes or returns no positive amount; neither changes anything |
| Lifecycle.EqualRequestsNeverCollide | app/money.py:32-47 | two invoices for the same requested amount never share a payable amount |
| Lifecycle.DifferentRequestsCanCollide | app/money.py:32-47 | a request for n + 1 base units blocks the next request if it is for n |
| Lifecycle.OpenRowsRepeat | app/reconciliation.py:188-201 | an invoice that is open again has every column as when it was open before, whatever happened in between |
| Lifecycle.RollbackUndoesCredit | app/reconciliation.py:173-202 | credit, perhaps confirm, then roll back: the whole invoice table is restored, the audit rows stay, and no collision can stop it |
| Lifecycle.ReopenedIsPayable | app/processor.py:77-99 | a fresh event with the reopened invoice's address and amount credits that invoice again |
| CrosscheckExactness.CrosscheckExact | app/reconciliation.py:211-253 | a pass fails if and only if two invoices that would end up open share a payable amount; otherwise it orphans exactly the picked payments that are looked at, do not match and lie in the window, with their events, and reopens exactly their unsettled invoices (`Columns.OrphansExactly` spells the condition out) |
| Columns.OrphansExactly | app/reconciliation.py:228-247 | a committed pass orphans a payment exactly if it is picked, every receipt up to its own was answered, its own is missing or shows another block hash than its event, and its block lies above the head minus the safety depth; every other payment is unchanged |
| Columns.LooksAtAnswered | app/reconciliation.py:228-233 | a pass looks at a payment exactly if no receipt up to its own failed |
| Columns.PicksByAge | app/reconciliation.py:218-227 | the payments picked for a pass are the newest that count: a picked one has fewer newer ones than the batch size, and one with no more than that as new as itself is picked |
| CrosscheckExactness.CrosscheckCounts | app/reconciliation.py:215-253 | the returned statistics are the numbers of payments looked at, mismatched, and orphaned |
| CrosscheckExactness.CheckOneCase | app/reconciliation.py:178-199 | inside a pass the defensive branches are dead: event and invoice exist, the event is not orphaned, the invoice is confirming, confirmed or settled, and the clamp at zero changes nothing |
| CrosscheckExactness.PickedIsUntouched | app/reconciliation.py:228-246 | no rollback of a pass touches a payment or an invoice that a later one of the same pass needs |
| CrosscheckExactness.NoCollisionAfter | app/models.py:84-98 | a pass that gets through leaves no two open invoices with the same key |
| Runs.ReconcileSteps | app/reconciliation.py:256-272 | a whole reconcile pass: rescues, then the exact cross-check of the payments before the first RPC failure |
| Announcements.SweepTells | app/confirmations.py:60-80 | a sweep enqueues one expired or confirmed message for each invoice whose status it changes, and none for others |
| Announcements.DispatchTells | app/webhooks.py:197-201 | an attempt enqueues one settled message exactly when it settles the invoice; a retry is not news |
| Announcements.CrosscheckTells | app/reconciliation.py:202 | a cross-check tells every invoice it reopens, once, that its payment is gone, and nobody else anything |
| Announcements.RescueTells | app/reconciliation.py:103-109 | a rescue adds one confirmed message, only for a confirmed invoice without a pending or delivered one |
| Announcements.StepTells | app/webhooks.py:108-127 | in every step an invoice gets as first attempts exactly the news of its change of status, rescues excepted |
| LossReports.EveryLossIsTold | app/reconciliation.py:173-202 | in every reachable state the reorgged messages of an invoice are as many as its orphaned payments, except one orphaned after settling |
| LossReports.StepKeepsLosses | app/reconciliation.py:180-202 | every step keeps that balance |
| Webhooks.TraceRefinesStatus | app/webhooks.py:108-127 | the first attempts for an invoice are a run of the automaton C/R/E/S that ends in its status; settled and expired are announced exactly once, if and only if the invoice is; a settled invoice has a delivered confirmation |
| Webhooks.DeliveryChains | app/webhooks.py:202-219 | every attempt ends a chain of attempts 1..k of one payload and signature, k at most max(1, max attempts), all but the last failed, each due its backoff later; at most one retry each, none after a pending or delivered one; nothing is delivered before it is due |
| Webhooks.MessagesAreTrue | app/webhooks.py:88-127 | in every reachable state every message ever enqueued states its invoice's terms, the status its kind announces and the amount credited then, and is signed for that invoice's merchant |
| Webhooks.BackoffMonotone | app/webhooks.py:206-209 | waits never exceed the cap, and never shrink if and only if the base is not negative |
| Columns.WaitsOnNumbers | app/webhooks.py:206-209 | the first five waits as numbers, and every later one twice the one before until the cap |
| Webhooks.TotalWaitBound | app/webhooks.py:205-219 | the waits up to attempt n add up to at most (n - 1) * cap and at most base * (2^(n-1) - 1) |
| Webhooks.ScheduleIsKept | app/webhooks.py:210-219 | attempt n is not due before the whole schedule has passed |
| Webhooks.ServingRunCompletes | app/webhooks.py:136-225 | a run that attempts every selected row leaves none of them pending, however its commits are interleaved with others |
| Webhooks.BoundedBypass | app/webhooks.py:138-151 | in every run of the ledger a due attempt with m pending rows up to and including it is taken on within ceil(m / 50) completed ticks, whatever is committed before and during them |
| Webhooks.UninterruptedTick | app/webhooks.py:157-225 | a tick that runs alone raises nothing and attempts all it selected |
| Webhooks.DispatchAllKeeps | app/webhooks.py:158-225 | after k attempts of a tick the first k rows are finished and the others untouched |
| HookSteps.DeliveredConfirmation | app/webhooks.py:197-201 | a delivered confirmation finds its invoice confirmed, settled, or rolled back at least once |
| RescueExactness.RescueExact | app/reconciliation.py:79-112 | in any row order a pass rescues min(cap, number of stuck invoices), leaves that many fewer stuck, and under the cap none |
| RescueExactness.BacklogIsCleared | app/reconciliation.py:89-90 | n stuck invoices are all announced after ceil(n / cap) passes in a row |
| RescueExactness.RescuePromiseIff | app/reconciliation.py:6-11 | after a pass under its cap a confirmed invoice has a pending confirmation if and only if it had one before or had no delivered one |
| RescueExactness.NeverRolledBackIsRescued | app/reconciliation.py:101-109 | a confirmed invoice that was never rolled back has no delivered confirmation, and after a pass under its cap has a pending one |
| RescueExactness.OldDeliverySuppressesRescue | app/reconciliation.py:103-105 | an invoice with a delivered confirmation gets no new message from a rescue |
| RescueExactness.SilencedWhileConfirmed | app/reconciliation.py:103-105 | nor from any other step of any run, for as long as it stays confirmed |
| RescueWitness.RescueCanBeSuppressed | app/reconciliation.py:79-112 | a reachable state in which a confirmed invoice has no pending confirmation, and is announced by no rescue in that state, in any listing, nor in any run in which it stays confirmed |
| CollisionWitness.PassIsLostIff | app/reconciliation.py:188-202 | a reconcile pass is lost, rescues included, if and only if two invoices that it would leave open share their payable amount |
| CollisionWitness.StandingStays | app/models.py:84-98 | whatever the step, a collision between an unsettled paid invoice and an open one stands exactly until the open one is no longer open or the paid one is settled |
| CollisionWitness.BlockedUntilReleased | app/reconciliation.py:188-202 | through any run in which neither happens the payment stays credited, and every pass that misses it inside the window is lost and changes nothing |
| CollisionWitness.RearmingCanFail | app/reconciliation.py:188-189 | a reachable state and a pass in which the rolled-back amount cannot re-arm |
| CollisionWitness.BlockedInvoiceSettles | app/reconciliation.py:180-202 | from such a state the invoice is still confirmed and settled on the lost payment; later passes then commit, mark the payment and leave the invoice settled |
| IngestFold.EveryEventIsCounted | app/routes.py:445-472 | accepted + duplicates is the size of the batch, and accepted is how much the table grows |
| Columns.StoredRow | app/routes.py:456-471 | a new event becomes a pending row with every field of the request, the hexadecimal ones in lower case, an empty block hash as none |
| Columns.DuplicateIff | app/routes.py:440-455 | an event is a duplicate exactly if a row has its lower-cased hash and its log index |
| Columns.TakenWholeOrNotAtAll | app/routes.py:184-224 | a request is taken exactly if it has 1 to 500 events with every field in bounds, and otherwise stores nothing |
| IngestFold.AllRecorded | app/routes.py:433-439 | afterwards every posted event has a row, and old rows are unchanged |
| IngestFold.IngestConcat | app/routes.py:446-471 | one batch or two give the same table and the same accepted count |
| IngestFold.ReplayIsAbsorbed | app/routes.py:453-455 | events that have rows are all counted as duplicates and change nothing |
| IngestFold.ReplayAfterIngest | watcher/rpc.go:79-83 | replaying any prefix of an accepted batch, at any later time, changes no row and no status |
| IngestFold.ChunkingIsTransparent | watcher/rpc.go:84-96 | posting in chunks of any size builds the table of one unbounded post |
| IngestFold.SpellingIsAbsorbed | app/routes.py:440-444 | two spellings of one transaction hash are one event |
| WatcherObject.Watcher.Start | watcher/loop.go:18-31 | takes the configuration of this start; an unreadable checkpoint gives up, a saved one is resumed from at its very block, none starts at the head and saves it first |
| WatcherObject.Watcher.Ingest | watcher/rpc.go:56-77 | success means that the reply came back and the batch was accepted |
| WatcherObject.Watcher.IngestChunked | watcher/rpc.go:84-96 | posts ceil(n / 500) times and stops at the first error; succeeds exactly if every event is acceptable and every reply it waits for comes back, and the table is then that of one unbounded batch |
| WatcherObject.Watcher.Collect | watcher/loop.go:69-95 | the events of exactly the logs with a readable amount, a readable index and three topics, in order; each repeats its log: hash, index, block, block hash, contract and amount, from the address in topic 1, to the watched address |
| WatcherObject.Watcher.ScanWindow | watcher/loop.go:60-109 | position and checkpoint move only after all posts of the window were accepted, and then to its end; a failed save moves only the position; the table then holds a row for every readable log and no new row that repeats none |
| WatcherObject.Watcher.Tick | watcher/loop.go:40-112 | one tick, at any height and cut short by the death of the process at any window, is a run of the system; it is broken off exactly if one of the calls it made failed or returned an event that the API refuses; unless a block number wraps (never if target + maxBlocks is below 2^64) its windows tile the blocks it advanced by, in order and each of legal size, and it ends at the target unless cut short; at a height above the confirmations every window it adds ends at most at the height minus the confirmations |
| System.SysStepKeeps | watcher/loop.go:59-109 | every step of ledger or watcher, crashes included, keeps the combined invariant |
| System.SysReachableInv | watcher/loop.go:13-16 | so it holds after every run that mixes API steps with watcher steps failing at any call, at any height and under a new configuration at each start |
| System.ExactlyOnce | app/routes.py:445-472 | each log has at most one event row and is credited at most once, ever; a log returned for an accepted window has exactly one row |
| System.AcceptedIsStored | watcher/loop.go:96-109 | in every run the events of every accepted window are stored |
| System.Coverage | watcher/loop.go:51-109 | as long as no window was followed by a block number beyond 2^64, the checkpoint never exceeds the position, and every block after the start up to either lies in an accepted window of legal size whose events are all stored |
| System.StartsExactly | watcher/loop.go:18-31 | where each start leads: a saved checkpoint is resumed from at its block and nothing else changes; without one the head is saved first; any failure leaves the process down |
| System.OriginStays | watcher/loop.go:18-31 | once a checkpoint exists no step of ledger or watcher moves the origin or removes the checkpoint |
| System.CoveredSinceFirstStart | watcher/loop.go:18-109 | hence through every later run, restarts included, every block after the head of the first start and up to the checkpoint lies in an accepted window |
| System.ScanAimsBehindHead | watcher/loop.go:46-50 | at a height above the confirmations a scan aims exactly that many blocks behind it, otherwise at the height |
| System.DecodedFields | watcher/loop.go:69-95 | a log is posted exactly if it is readable, and every field of the event is that of the log, the recipient being the watched address and the sender the address in topic 1 |
| EndToEnd.IngestHoldsLogs | watcher/loop.go:69-101 | after the window is stored every readable log has its row, and every new row is pending and repeats a readable log |
| EndToEnd.AcceptedLogsHaveRows | watcher/loop.go:96-109 | in every reachable state a window accepted with the events of some logs has left a row for each readable one |
| EndToEnd.LogCreditsInvoice | app/processor.py:44-99 | from a log to the money: a readable log of amount n in a stored window has a row in every later state, and if that is still pending when it is processed while an invoice at the watched address is payable with n, that invoice is credited with n at the block of the log |
| WatcherObject.WrappedScanFallsBack | watcher/loop.go:59-63 | that condition is needed: a reachable scan at the end of the range of block numbers puts the checkpoint at 0, behind its start |
| System.FinishedTickReachedTarget | watcher/loop.go:59 | under the same condition a tick that is not broken off has reached its target |
| System.RefusedEventHoldsTheScan | app/routes.py:192 | a window with an event that the API refuses is never accepted |
| System.ScanAdvancesIff | watcher/loop.go:59-63 | the unsigned sum advances exactly if it stays below 2^64; with target + maxBlocks below that no window bound wraps |
| MoneyExactness.OverflowIff | app/money.py:20 | the product overflows the context exactly if it needs an exponent above 999999, or lies within half a unit of the last digit kept below the power of ten that does |
| MoneyExactness.ParserExactIff | app/money.py:12-23 | for every positive finite decimal with p = 10^6 times its coefficient: the parser is exact if and only if no non-zero digit of p is dropped, or p is more than half a unit of the last digit kept away from every integer (or it overflows where there was no integer) |
| MoneyExactness.ParserExact | app/money.py:12-23 | up to 28 digits and with an exponent in range it accepts exactly the values whose 10^6-fold is an integer, and returns that integer |
| MoneyExactness.TwentyNineDigitsWronglyAccepted | app/money.py:20-22 | one digit more, and an amount with 28 decimals is accepted |
| MoneyWitness.TwentyNineDigitText | app/money.py:12-23 | the text 1.0000000000000000000000000001 is parsed as 1000000 base units |
| MoneyExactness.TinyAmountAcceptedAsZero | app/money.py:18-23 | a positive amount is accepted as zero if and only if it is at most half of the context's smallest positive number |
| MoneyWitness.TinyText | app/money.py:12-23 | the text 1e-1000100 is parsed as zero base units |
| MoneyTexts.NotPositiveIsRejected | app/money.py:18-19 | a finite value at or below zero is rejected, whatever its digits and exponent |
| MoneyTexts.MinusIsNeverAccepted | app/money.py:14-19 | no text that starts with a minus sign is accepted |
| MoneyTexts.PlusIsIgnored | app/money.py:14-17 | a plus sign in front changes nothing |
| MoneyTexts.ZeroIsRejected | app/money.py:18-19 | a zero in any number of digits, with a dot or without, is rejected |
| MoneyTexts.WordTexts | app/money.py:14-20 | a text that does not start like a number escapes the parser as another error exactly if it spells infinity or NaN (with or without digits behind it) in any case, and is rejected otherwise |
| MoneyTexts.MarkedText | app/money.py:14-22 | digits, a dot, digits and an exponent of either letter and any sign are read as that number; beyond the exponents that a decimal can have the text is rejected |
| MoneyTexts.BlanksAreIgnored | app/money.py:15 | a blank on either side of a text changes nothing |
| MoneyTexts.UnderscoresAreIgnored | app/money.py:15 | an underscore anywhere inside changes nothing |
| MoneyWitness.PrintedTexts | app/money.py:26-29 | 25500000, 120000000 and 1 base units are printed as 25.5, 120 and 0.000001 |
| MoneyRoundTrip.RoundTrip | app/money.py:26-29 | for every 0 < n < 10^28, parsing what is printed gives n back, and what is printed is plain notation without trailing fractional zeros |
| MoneyRoundTrip.RoundTripIff | app/money.py:26-29 | beyond that bound the round trip holds if and only if the digits past the 28th are zeros |
| MoneyRoundTrip.RoundTripBoundIsSharp | app/money.py:28 | 10^28 + 1 is printed as 10^28 |
| MoneyRoundTrip.PrintThenParse | app/money.py:28-29 | whatever is printed is plain notation and is parsed as the value it was rounded to |

## Left out

- The limit of 120 characters on idempotency keys, checked before the handler runs, and blanks around the receiving address in the settings.
- Column widths: identifiers, amounts and blocks are unbounded integers; a value that does not fit a 64-bit column is not modelled.
- Interleavings inside one transaction, session caches and stale rows: outside the program's single-applier assumption. Rows are values in table fields, so aliasing of row objects is not captured.
- Gaps in primary keys, which PostgreSQL leaves after a rolled-back insert: the model numbers rows as SQLite does.
- Columns that no step reads: public ids, descriptions, tokens, raw payloads, response codes, error texts, processing and update times.
- API keys, the internal key, HMAC, SHA-256 and the private-host check: a verdict, an arbitrary function, and one HTTP outcome.
- HTTP, JSON-RPC, hexadecimal decoding, file operations and background loops: only their outcomes. The quantities of a log are given as the numbers they decode to, or as malformed.
- Unicode: lower-casing is the ASCII one, stripping knows four blanks, and amounts are written in ASCII digits.
- Fractional seconds: times and delays are integers in one common unit.
- Alert-only queries (stale pending events, suspicious skips), list endpoints, the checkout page, payment URIs, serializers, scripts and schema migrations.
- `is_payable` and `mark_expired_if_due` (app/state_machine.py:65-84), which no modelled step uses.
- Progress over time: that jobs run again is not assumed, so nothing is promised to happen eventually; bounds are in completed ticks or passes.
- A tick whose scan wraps may never end; WatcherObject.Watcher.Tick gives the process a lifetime in windows instead of assuming that it does end.
- Decimal texts longer than memory and the exponent limits of builds other than a 64-bit CPython.
- MoneyRoundTrip.RoundTripIff: assumes at most 999999 digits; beyond that printing overflows the decimal context.
- Crediting the same log again after it was orphaned: the program does not do so, since its event row exists.
- Payments that arrive for an expired invoice are skipped, as in the program; refunds do not exist.
