/** Ingesting is an idempotent fold over the posted events: batching, repeating
    and replaying do not change the table they build. */
module IngestFold {
  import opened Basics
  import opened Model
  import opened Steps
  import opened Runs

  /** Every event is either stored or counted as a duplicate. */
  lemma {:induction false} EveryEventIsCounted(events: seq<ChainEvent>, batch: seq<Transfer>)
    ensures var r := IngestAll(events, batch);
            && r.accepted + r.duplicates == |batch|
            && |r.events| == |events| + r.accepted
  {
    if batch != [] {
      EveryEventIsCounted(events, batch[..|batch| - 1]);
    }
  }

  lemma RecordedStays(events: seq<ChainEvent>, more: seq<ChainEvent>, t: Transfer)
    requires Recorded(events, t) && events <= more
    ensures Recorded(more, t)
  {
    var r :| 0 <= r < |events| && SameKey(events[r].log, Canonical(t));
    assert more[r] == events[r];
  }

  /** Afterwards every posted event has its row. */
  lemma {:induction false} AllRecorded(events: seq<ChainEvent>, batch: seq<Transfer>)
    ensures forall k :: 0 <= k < |batch| ==> Recorded(IngestAll(events, batch).events, batch[k])
    ensures events <= IngestAll(events, batch).events
  {
    if batch != [] {
      var before, last := batch[..|batch| - 1], batch[|batch| - 1];
      AllRecorded(events, before);
      IngestExtends(events, before);
      var at := IngestAll(events, before).events;
      var after := IngestAll(events, batch).events;
      if !Recorded(at, last) {
        assert after[|at|].log == Canonical(last);
      }
      forall k | 0 <= k < |batch|
        ensures Recorded(after, batch[k])
      {
        if k < |before| {
          assert before[k] == batch[k];
          RecordedStays(at, after, batch[k]);
        }
      }
    }
  }

  /** One batch or two, the table is the same. */
  lemma {:induction false} IngestConcat(events: seq<ChainEvent>, a: seq<Transfer>, b: seq<Transfer>)
    ensures IngestAll(events, a + b).events == IngestAll(IngestAll(events, a).events, b).events
    ensures IngestAll(events, a + b).accepted ==
            IngestAll(events, a).accepted + IngestAll(IngestAll(events, a).events, b).accepted
  {
    if b == [] {
      assert a + b == a;
    } else {
      var c := b[..|b| - 1];
      assert (a + b)[..|a + b| - 1] == a + c;
      IngestConcat(events, a, c);
    }
  }

  /** What is recorded is absorbed: replaying it changes no row. */
  lemma {:induction false} ReplayIsAbsorbed(events: seq<ChainEvent>, batch: seq<Transfer>)
    requires forall k :: 0 <= k < |batch| ==> Recorded(events, batch[k])
    ensures IngestAll(events, batch) == Ingested(events, 0, |batch|)
  {
    if batch != [] {
      ReplayIsAbsorbed(events, batch[..|batch| - 1]);
    }
  }

  /** In particular any prefix of a batch, at any later time. */
  lemma ReplayAfterIngest(db: Db, later: Db, batch: seq<Transfer>, n: nat)
    requires ValidBatch(batch) && 1 <= n <= |batch| && Later(Ingest(db, batch), later)
    ensures Ingest(later, batch[..n]) == later
  {
    AllRecorded(db.events, batch);
    forall k | 0 <= k < n
      ensures Recorded(later.events, batch[..n][k])
    {
      var r :| 0 <= r < |Ingest(db, batch).events| && SameKey(Ingest(db, batch).events[r].log, Canonical(batch[k]));
      assert later.events[r].log == Ingest(db, batch).events[r].log;
    }
    ReplayIsAbsorbed(later.events, batch[..n]);
  }

  // ----------------------------------------------------------- chunking

  /** The batches in which the watcher posts a window's events. */
  function Chunks(batch: seq<Transfer>, size: nat): seq<seq<Transfer>>
    requires 0 < size
    decreases |batch|
  {
    if |batch| == 0 then []
    else if |batch| <= size then [batch]
    else [batch[..size]] + Chunks(batch[size..], size)
  }

  function IngestChunks(events: seq<ChainEvent>, chunks: seq<seq<Transfer>>): seq<ChainEvent>
    decreases |chunks|
  {
    if chunks == [] then events else IngestChunks(IngestAll(events, chunks[0]).events, chunks[1..])
  }

  /** Posting in chunks of any size builds the table of one unbounded post. */
  lemma {:induction false} ChunkingIsTransparent(events: seq<ChainEvent>, batch: seq<Transfer>, size: nat)
    requires 0 < size
    ensures IngestChunks(events, Chunks(batch, size)) == IngestAll(events, batch).events
    decreases |batch|
  {
    if |batch| == 0 {
    } else if |batch| <= size {
      assert IngestChunks(IngestAll(events, batch).events, []) == IngestAll(events, batch).events;
    } else {
      var head, tail := batch[..size], batch[size..];
      ChunkingIsTransparent(IngestAll(events, head).events, tail, size);
      assert ([head] + Chunks(tail, size))[1..] == Chunks(tail, size);
      IngestConcat(events, head, tail);
      assert head + tail == batch;
    }
  }

  /** Two spellings of one transaction hash are one event. */
  lemma SpellingIsAbsorbed(events: seq<ChainEvent>, a: Transfer, b: Transfer)
    requires Lower(a.txHash) == Lower(b.txHash) && a.logIndex == b.logIndex
    ensures IngestAll(events, [a, b]).events == IngestAll(events, [a]).events
  {
    assert [a, b][..1] == [a];
    AllRecorded(events, [a]);
    assert Recorded(IngestAll(events, [a]).events, [a][0]);
  }
}
