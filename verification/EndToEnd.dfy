/** From a log on the chain to a credited invoice: what the rows of an accepted
    window are, and what becomes of them. */
module EndToEnd {
  import opened Basics
  import opened Model
  import opened Steps
  import opened Invariant
  import opened Runs
  import opened System
  import Columns
  import IngestFold
  import LedgerSteps

  // ---------------------------------------------------------- the rows

  /** The row says what the log says, in lower case. */
  predicate StoredFrom(hotAddress: string, l: Log, row: Transfer) {
    && Readable(l)
    && row.txHash == Lower(l.txHash) && row.logIndex == l.index.value
    && row.block == l.block && row.amount == l.amount.value
    && row.blockHash == (if l.blockHash == "" then None else Some(Lower(l.blockHash)))
    && row.contractAddress == Lower(l.address) && row.toAddress == Lower(hotAddress)
    && (|l.topics[1]| == 66 && l.topics[1][0] == '0' && l.topics[1][1] in "xX" ==>
          row.fromAddress == "0x" + Lower(l.topics[1][26..]))
  }

  /** The row has the hash and the index of the log. */
  predicate RowOf(l: Log, row: ChainEvent) {
    row.log.txHash == Lower(l.txHash) && l.index == Some(row.log.logIndex)
  }

  ghost predicate HasRow(l: Log, events: seq<ChainEvent>) {
    exists r :: 0 <= r < |events| && RowOf(l, events[r])
  }

  ghost predicate FromSomeLog(hotAddress: string, logs: Logs, row: Transfer) {
    exists j :: 0 <= j < |logs| && StoredFrom(hotAddress, logs[j], row)
  }

  /** The table grew by the window: every readable log has its row, and every row that
      is new is a pending one that repeats a readable log. */
  ghost predicate HoldsLogs(hotAddress: string, logs: Logs, before: seq<ChainEvent>, after: seq<ChainEvent>) {
    && before <= after
    && (forall j :: 0 <= j < |logs| && Readable(logs[j]) ==> HasRow(logs[j], after))
    && (forall r :: |before| <= r < |after| ==>
          after[r].status == EventPending && FromSomeLog(hotAddress, logs, after[r].log))
  }

  lemma PrefixedLower(s: string)
    ensures Lower("0x" + Lower(s)) == "0x" + Lower(s)
  {
    hide Lower;
    var t := "0x" + Lower(s);
    LowerDrop(t, 2);
    LowerAt(t, 0);
    LowerAt(t, 1);
    LowerIdempotent(s);
    assert t[2..] == Lower(s);
    assert Lower(t) == Lower(t)[..2] + Lower(t)[2..];
  }

  lemma CanonicalKeeps(hotAddress: string, l: Log, t: Transfer)
    requires Repeats(hotAddress, l, t)
    ensures StoredFrom(hotAddress, l, Canonical(t))
  {
    hide Lower;
    LowerIdempotent(l.txHash);
    LowerIdempotent(l.address);
    LowerIdempotent(hotAddress);
    if |l.topics[1]| == 66 && l.topics[1][0] == '0' && l.topics[1][1] in "xX" {
      PrefixedLower(l.topics[1][26..]);
    }
  }

  lemma {:induction false} EachIsRepeated(hotAddress: string, logs: Logs, transfers: seq<Transfer>, j: nat)
    requires RepeatsAll(hotAddress, logs, transfers) && j < |logs| && Readable(logs[j])
    ensures exists k :: 0 <= k < |transfers| && Repeats(hotAddress, logs[j], transfers[k])
    decreases |logs|
  {
    hide Repeats, Readable;
    var n := |logs| - 1;
    if j == n {
      assert Repeats(hotAddress, logs[j], transfers[|transfers| - 1]);
    } else {
      var rest := if Readable(logs[n]) then transfers[..|transfers| - 1] else transfers;
      EachIsRepeated(hotAddress, logs[..n], rest, j);
      var k :| 0 <= k < |rest| && Repeats(hotAddress, logs[..n][j], rest[k]);
      assert transfers[k] == rest[k];
    }
  }

  lemma {:induction false} EachRepeats(hotAddress: string, logs: Logs, transfers: seq<Transfer>, k: nat)
    requires RepeatsAll(hotAddress, logs, transfers) && k < |transfers|
    ensures exists j :: 0 <= j < |logs| && Repeats(hotAddress, logs[j], transfers[k])
    decreases |logs|
  {
    hide Repeats, Readable;
    var n := |logs| - 1;
    if Readable(logs[n]) && k == |transfers| - 1 {
      assert Repeats(hotAddress, logs[n], transfers[k]);
    } else {
      var rest := if Readable(logs[n]) then transfers[..|transfers| - 1] else transfers;
      EachRepeats(hotAddress, logs[..n], rest, k);
      var j :| 0 <= j < n && Repeats(hotAddress, logs[..n][j], rest[k]);
      assert logs[j] == logs[..n][j];
    }
  }

  lemma {:induction false} NewRowsAreCanonical(events: seq<ChainEvent>, batch: seq<Transfer>, r: nat)
    requires |events| <= r < |IngestAll(events, batch).events|
    ensures exists k :: 0 <= k < |batch|
                        && IngestAll(events, batch).events[r] == ChainEvent(Canonical(batch[k]), EventPending)
  {
    hide Canonical, Recorded;
    if batch != [] {
      var n := |batch| - 1;
      var at := IngestAll(events, batch[..n]);
      if r < |at.events| {
        NewRowsAreCanonical(events, batch[..n], r);
        var k :| 0 <= k < n && at.events[r] == ChainEvent(Canonical(batch[..n][k]), EventPending);
        assert batch[k] == batch[..n][k];
      } else {
        assert IngestAll(events, batch).events[r] == ChainEvent(Canonical(batch[n]), EventPending);
      }
    }
  }

  lemma RecordedIsRow(hotAddress: string, l: Log, t: Transfer, events: seq<ChainEvent>)
    requires Repeats(hotAddress, l, t) && Recorded(events, t)
    ensures HasRow(l, events)
  {
    hide Lower;
    LowerIdempotent(l.txHash);
    var r :| 0 <= r < |events| && SameKey(events[r].log, Canonical(t));
    assert RowOf(l, events[r]);
  }

  /** Ingesting what the readable logs say makes the table hold them. */
  lemma IngestHoldsLogs(hotAddress: string, logs: Logs, transfers: seq<Transfer>, before: seq<ChainEvent>)
    requires RepeatsAll(hotAddress, logs, transfers)
    ensures HoldsLogs(hotAddress, logs, before, IngestAll(before, transfers).events)
  {
    hide Repeats, Readable, StoredFrom, Canonical, Recorded, RepeatsAll;
    var after := IngestAll(before, transfers).events;
    IngestFold.AllRecorded(before, transfers);
    forall j | 0 <= j < |logs| && Readable(logs[j])
      ensures HasRow(logs[j], after)
    {
      EachIsRepeated(hotAddress, logs, transfers, j);
      var k :| 0 <= k < |transfers| && Repeats(hotAddress, logs[j], transfers[k]);
      RecordedIsRow(hotAddress, logs[j], transfers[k], after);
    }
    forall r | |before| <= r < |after|
      ensures after[r].status == EventPending && FromSomeLog(hotAddress, logs, after[r].log)
    {
      NewRowsAreCanonical(before, transfers, r);
      var k :| 0 <= k < |transfers| && after[r] == ChainEvent(Canonical(transfers[k]), EventPending);
      EachRepeats(hotAddress, logs, transfers, k);
      var j :| 0 <= j < |logs| && Repeats(hotAddress, logs[j], transfers[k]);
      CanonicalKeeps(hotAddress, logs[j], transfers[k]);
    }
  }

  /** In every state that a run can reach, a window that was accepted with the events
      of some logs has left a row for each readable one. */
  lemma AcceptedLogsHaveRows(s: Sys, k: nat, hotAddress: string, logs: Logs, j: nat)
    requires SysInv(s) && k < |s.accepted| && RepeatsAll(hotAddress, logs, s.accepted[k].events)
    requires j < |logs| && Readable(logs[j])
    ensures HasRow(logs[j], s.db.events)
  {
    hide Inv, Gapless, RepeatsAll, Repeats, Readable, Recorded, HasRow;
    var events := s.accepted[k].events;
    EachIsRepeated(hotAddress, logs, events, j);
    var i :| 0 <= i < |events| && Repeats(hotAddress, logs[j], events[i]);
    RecordedIsRow(hotAddress, logs[j], events[i], s.db.events);
  }

  // --------------------------------------------------------- the credit

  /** No other readable log of the window has the hash and index of log j. */
  ghost predicate Alone(logs: Logs, j: nat)
    requires j < |logs|
  {
    forall k :: 0 <= k < |logs| && k != j && Readable(logs[k]) ==>
      Lower(logs[k].txHash) != Lower(logs[j].txHash) || logs[k].index != logs[j].index
  }

  lemma RowRepeatsLog(hotAddress: string, logs: Logs, before: seq<ChainEvent>, after: seq<ChainEvent>, j: nat)
    returns (e: nat)
    requires HoldsLogs(hotAddress, logs, before, after)
    requires j < |logs| && Readable(logs[j]) && !HasRow(logs[j], before) && Alone(logs, j)
    ensures e < |after| && StoredFrom(hotAddress, logs[j], after[e].log)
  {
    hide Lower;
    e :| 0 <= e < |after| && RowOf(logs[j], after[e]);
    assert forall r :: 0 <= r < |before| ==> after[r] == before[r] && !RowOf(logs[j], before[r]);
    var k :| 0 <= k < |logs| && StoredFrom(hotAddress, logs[k], after[e].log);
  }

  lemma CreditedMeans(db: Db, e: nat, i: nat)
    requires Inv(db) && e < |db.events| && i < |db.invoices| && ProcessAndCommit(db, e).Ok?
    requires i < |ProcessAndCommit(db, e).value.db.invoices|
    requires ProcessAndCommit(db, e).value.db.invoices[i].status != db.invoices[i].status
    ensures ProcessAndCommit(db, e).value.outcome == OutcomeCredited
  {
    hide Inv;
    LedgerSteps.ProcessKeeps(db, e);
  }

  /** End to end: a readable log of amount n, in a window that was stored, has a row in
      every later state; if that row is still pending when it is processed, and an open
      invoice at the watched address is payable with n, that invoice is credited: it
      is being confirmed, paid with n, at the block of the log. */
  lemma LogCreditsInvoice(hotAddress: string, logs: Logs, before: seq<ChainEvent>, stored: Db, db: Db, j: nat, i: nat)
    returns (e: nat)
    requires HoldsLogs(hotAddress, logs, before, stored.events)
    requires j < |logs| && Readable(logs[j]) && !HasRow(logs[j], before) && Alone(logs, j)
    requires Inv(db) && Later(stored, db)
    requires i < |db.invoices| && db.invoices[i].status == AwaitingPayment
    requires db.invoices[i].address == Lower(hotAddress) && logs[j].amount == Some(db.invoices[i].amount)
    ensures e < |db.events|
    ensures db.events[e].log.txHash == Lower(logs[j].txHash) && logs[j].index == Some(db.events[e].log.logIndex)
    ensures db.events[e].status == EventPending ==>
              var done := ProcessAndCommit(db, e);
              && done.Ok? && done.value.outcome == OutcomeCredited
              && done.value.db.invoices == db.invoices[i := db.invoices[i].(
                   status := Confirming, paid := logs[j].amount.value, detectedBlock := Some(logs[j].block))]
  {
    hide Inv, Lower;
    e := RowRepeatsLog(hotAddress, logs, before, stored.events, j);
    assert db.events[e].log == stored.events[e].log;
    if db.events[e].status == EventPending {
      Columns.CreditsExactly(db, e, i);
      CreditedMeans(db, e, i);
    }
  }
}
