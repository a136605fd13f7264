/** The watcher as the program runs it: a tick of nested loops over windows and
    batches. Each method is proved to perform a run of the system's transitions. */
module WatcherObject {
  import opened Basics
  import opened Model
  import opened Steps
  import opened Runs
  import opened System
  import opened LedgerObject
  import EndToEnd
  import IngestFold

  lemma ExtendRun(s: Sys, trace: seq<SysAction>, a: SysAction)
    requires SysLegalRun(s, trace) && SysEnabled(SysExec(s, trace), a)
    ensures SysLegalRun(s, trace + [a]) && SysExec(s, trace + [a]) == SysApply(SysExec(s, trace), a)
  {
    assert (trace + [a])[..|trace|] == trace;
  }

  // The five transitions of a tick, each as the run it extends.

  lemma ExtendPoll(s: Sys, trace: seq<SysAction>, now: Sys, height: nat)
    requires SysLegalRun(s, trace) && SysExec(s, trace) == now && now.phase.Idle?
    requires height < U64 && now.phase.last < Target(now.cfg, height)
    ensures SysLegalRun(s, trace + [Poll(Some(height))])
    ensures SysExec(s, trace + [Poll(Some(height))]) ==
            now.(phase := Scanning(now.phase.last, Target(now.cfg, height), Wrap(now.phase.last + 1)))
  {
    hide SysLegalRun, SysExec, Wrap, Target, Enabled, Apply;
    ExtendRun(s, trace, Poll(Some(height)));
  }

  lemma ExtendGetLogs(s: Sys, trace: seq<SysAction>, now: Sys, logs: Option<Logs>)
    requires SysLegalRun(s, trace) && SysExec(s, trace) == now
    requires now.phase.Scanning? && now.phase.from <= now.phase.target
    ensures SysLegalRun(s, trace + [GetLogs(logs)])
    ensures SysExec(s, trace + [GetLogs(logs)]) ==
            var p := now.phase;
            now.(phase := if logs.None? then Idle(p.last)
                          else Posting(p.last, p.target, p.from, WindowEnd(now.cfg, p.from, p.target),
                                       Decode(now.cfg, logs.value), 0))
  {
    ExtendRun(s, trace, GetLogs(logs));
  }

  lemma ExtendPost(s: Sys, trace: seq<SysAction>, now: Sys, reply: Reply)
    requires SysLegalRun(s, trace) && SysExec(s, trace) == now
    requires now.phase.Posting? && now.phase.start < |now.phase.events|
    ensures SysLegalRun(s, trace + [Post(reply)])
    ensures SysExec(s, trace + [Post(reply)]) ==
            var p := now.phase;
            var batch := Chunk(p.events, p.start);
            now.(db := if reply.Lost? then now.db else Steps.Ingest(now.db, batch),
                 phase := if reply.Heard? && ValidBatch(batch) then p.(start := Min(p.start + MAX_BATCH, |p.events|))
                          else Idle(p.last))
  {
    ExtendRun(s, trace, Post(reply));
  }

  lemma ExtendClose(s: Sys, trace: seq<SysAction>, now: Sys, saveOk: bool)
    requires SysLegalRun(s, trace) && SysExec(s, trace) == now
    requires now.phase.Posting? && now.phase.start >= |now.phase.events|
    ensures SysLegalRun(s, trace + [CloseWindow(saveOk)])
    ensures SysExec(s, trace + [CloseWindow(saveOk)]) ==
            var p := now.phase;
            now.(saved := if saveOk then Some(p.to) else now.saved,
                 phase := Scanning(p.to, p.target, Wrap(p.from + now.cfg.maxBlocks)),
                 accepted := now.accepted + [Window(p.from, p.to, p.events, now.cfg.maxBlocks)],
                 unwrapped := now.unwrapped && GoesOn(now.cfg, p.from))
  {
    ExtendRun(s, trace, CloseWindow(saveOk));
  }

  lemma ExtendEnd(s: Sys, trace: seq<SysAction>, now: Sys)
    requires SysLegalRun(s, trace) && SysExec(s, trace) == now
    requires now.phase.Scanning? && now.phase.from > now.phase.target
    ensures SysLegalRun(s, trace + [EndTick])
    ensures SysExec(s, trace + [EndTick]) == now.(phase := Idle(now.phase.last))
  {
    ExtendRun(s, trace, EndTick);
  }

  /** The windows follow each other without gap or overlap from the block after
      `lo` to `hi`, none larger than `size`. */
  ghost predicate Tiles(windows: seq<Window>, lo: nat, hi: nat, size: nat) {
    if windows == [] then lo == hi
    else
      var w := windows[|windows| - 1];
      && w.to == hi && w.from <= w.to < w.from + size && 0 < w.from
      && Tiles(windows[..|windows| - 1], lo, w.from - 1, size)
  }

  lemma TilesSnoc(windows: seq<Window>, lo: nat, mid: nat, size: nat, w: Window)
    requires Tiles(windows, lo, mid, size) && w.from == mid + 1 && w.from <= w.to < w.from + size
    ensures Tiles(windows + [w], lo, w.to, size)
  {
    assert (windows + [w])[..|windows|] == windows;
  }

  lemma TilesEmpty(at: nat, size: nat)
    ensures Tiles([], at, at, size)
  {
  }

  lemma ExtendCrash(s: Sys, trace: seq<SysAction>, now: Sys)
    requires SysLegalRun(s, trace) && SysExec(s, trace) == now
    ensures SysLegalRun(s, trace + [Crash]) && SysExec(s, trace + [Crash]) == now.(phase := Down)
  {
    ExtendRun(s, trace, Crash);
  }

  lemma DecodeSnoc(cfg: Config, logs: Logs, k: nat)
    requires k < |logs|
    ensures var l := DecodeLog(cfg, logs[k]);
            Decode(cfg, logs[..k + 1]) == Decode(cfg, logs[..k]) + (if l.Some? then [l.value] else [])
  {
    assert logs[..k + 1][..k] == logs[..k];
  }

  lemma ChunkStart(table: seq<ChainEvent>, events: seq<Transfer>)
    ensures events[..0] == [] && IngestAll(table, events[..0]).events == table
  {
  }

  // ------------------------------------------------------- what can fail

  ghost predicate AllValid(events: seq<Transfer>) {
    forall k :: 0 <= k < |events| ==> ValidTransfer(events[k])
  }

  /** Every reply from number `from` to below number `to` came back. */
  ghost predicate HeardAll(replies: nat -> Reply, from: nat, to: nat) {
    forall k: nat :: from <= k < to ==> replies(k).Heard?
  }

  lemma NoneHeard(replies: nat -> Reply, from: nat)
    ensures HeardAll(replies, from, from)
  {
  }

  lemma OneMoreHeard(replies: nat -> Reply, from: nat, to: nat)
    requires from <= to
    ensures HeardAll(replies, from, to + 1) <==> HeardAll(replies, from, to) && replies(to).Heard?
  {
  }

  lemma HeardInTurn(replies: nat -> Reply, from: nat, mid: nat, to: nat)
    requires from <= mid <= to
    ensures HeardAll(replies, from, to) <==> HeardAll(replies, from, mid) && HeardAll(replies, mid, to)
  {
  }

  lemma ChunkIsValid(events: seq<Transfer>, start: nat)
    requires start < |events|
    ensures var end := Min(start + MAX_BATCH, |events|);
            && (AllValid(events) ==> ValidBatch(Chunk(events, start)))
            && (AllValid(events[..start]) && ValidBatch(Chunk(events, start)) ==> AllValid(events[..end]))
  {
    hide ValidTransfer;
    var batch, end := Chunk(events, start), Min(start + MAX_BATCH, |events|);
    assert forall k :: 0 <= k < |batch| ==> batch[k] == events[start + k];
    if AllValid(events[..start]) && ValidBatch(batch) {
      forall k | 0 <= k < end
        ensures ValidTransfer(events[..end][k])
      {
        if k < start {
          assert events[..start][k] == events[k];
        } else {
          assert batch[k - start] == events[k];
        }
      }
    }
  }

  /** Every log that decodes, decodes to an acceptable event. */
  ghost predicate AllAcceptable(cfg: Config, logs: Logs) {
    forall j :: 0 <= j < |logs| && DecodeLog(cfg, logs[j]).Some? ==> ValidTransfer(DecodeLog(cfg, logs[j]).value)
  }

  lemma NothingToAccept(cfg: Config)
    ensures AllAcceptable(cfg, []) && AllValid([])
  {
  }

  lemma OneMoreAcceptable(cfg: Config, logs: Logs)
    requires logs != []
    ensures var n := |logs| - 1;
            var last := DecodeLog(cfg, logs[n]);
            AllAcceptable(cfg, logs) <==> AllAcceptable(cfg, logs[..n]) && (last.Some? ==> ValidTransfer(last.value))
  {
    hide ValidTransfer, DecodeLog;
    var before := logs[..|logs| - 1];
    assert forall j :: 0 <= j < |before| ==> before[j] == logs[j];
  }

  lemma OneMoreValid(events: seq<Transfer>, t: Transfer)
    ensures AllValid(events + [t]) <==> AllValid(events) && ValidTransfer(t)
  {
    hide ValidTransfer;
    var after := events + [t];
    assert after[|events|] == t;
    assert forall k :: 0 <= k < |events| ==> after[k] == events[k];
  }

  lemma {:induction false} DecodedAreAcceptable(cfg: Config, logs: Logs)
    ensures AllAcceptable(cfg, logs) <==> AllValid(Decode(cfg, logs))
  {
    hide ValidTransfer, DecodeLog, AllValid, AllAcceptable;
    if logs == [] {
      NothingToAccept(cfg);
    } else {
      var n := |logs| - 1;
      DecodedAreAcceptable(cfg, logs[..n]);
      OneMoreAcceptable(cfg, logs);
      var before, last := Decode(cfg, logs[..n]), DecodeLog(cfg, logs[n]);
      if last.Some? {
        OneMoreValid(before, last.value);
      } else {
        assert before + [] == before;
      }
    }
  }

  /** Each of the first `asked` queries was answered with acceptable logs, and each
      of the first `used` posts was answered. */
  ghost predicate NothingFailed(cfg: Config, answers: nat -> Option<Logs>, asked: nat, replies: nat -> Reply,
                                used: nat) {
    && (forall k: nat :: k < asked ==> answers(k).Some? && AllAcceptable(cfg, answers(k).value))
    && HeardAll(replies, 0, used)
  }

  lemma NothingYet(cfg: Config, answers: nat -> Option<Logs>, replies: nat -> Reply)
    ensures NothingFailed(cfg, answers, 0, replies, 0)
  {
  }

  lemma OneMoreCall(cfg: Config, answers: nat -> Option<Logs>, asked: nat, replies: nat -> Reply, used: nat,
                    usedAfter: nat)
    requires used <= usedAfter
    ensures NothingFailed(cfg, answers, asked + 1, replies, usedAfter) <==>
            && NothingFailed(cfg, answers, asked, replies, used)
            && answers(asked).Some? && AllAcceptable(cfg, answers(asked).value) && HeardAll(replies, used, usedAfter)
  {
    hide AllAcceptable, HeardAll;
    HeardInTurn(replies, 0, used, usedAfter);
  }

  // -------------------------------------------------------------- scans

  /** No window is followed by a block number beyond the range of uint64. */
  ghost predicate NoneWraps(windows: seq<Window>) {
    forall k :: 0 <= k < |windows| ==> windows[k].from + windows[k].size < U64
  }

  lemma NoWindowWraps()
    ensures NoneWraps([])
  {
  }

  lemma OneMoreGoesOn(windows: seq<Window>, w: Window)
    ensures NoneWraps(windows + [w]) <==> NoneWraps(windows) && w.from + w.size < U64
  {
    var after := windows + [w];
    assert after[|windows|] == w;
    assert forall k :: 0 <= k < |windows| ==> after[k] == windows[k];
  }

  lemma EmptyRun(s: Sys)
    ensures SysLegalRun(s, []) && SysExec(s, []) == s
  {
  }

  lemma ScanStarts(cfg: Config, last: nat, height: nat)
    requires ConfigOk(cfg) && height < U64 && last < Target(cfg, height)
    ensures ScanOk(cfg, last, Target(cfg, height), Wrap(last + 1))
  {
  }

  lemma ScanNext(cfg: Config, last: nat, target: nat, from: nat)
    requires ScanOk(cfg, last, target, from) && from <= target && GoesOn(cfg, from)
    ensures from == last + 1
    ensures var to := WindowEnd(cfg, from, target);
            from <= to < from + cfg.maxBlocks && ScanOk(cfg, to, target, Wrap(from + cfg.maxBlocks))
  {
  }

  lemma EndsByTarget(cfg: Config, from: nat, target: nat)
    ensures WindowEnd(cfg, from, target) <= target
  {
  }

  lemma AimOnNumbers(cfg: Config, height: nat)
    requires ConfigOk(cfg)
    ensures Target(cfg, height) == if height > cfg.confirmations then height - cfg.confirmations else height
  {
  }

  /** The scan before window number k of a tick: where it stands, and the windows
      of the tick so far. */
  ghost predicate OnTrack(cfg: Config, windows: seq<Window>, lo: nat, last: nat, target: nat, from: nat) {
    NoneWraps(windows) ==> ScanOk(cfg, last, target, from) && Tiles(windows, lo, last, cfg.maxBlocks)
  }

  lemma TrackStarts(cfg: Config, lo: nat, height: nat)
    requires ConfigOk(cfg) && height < U64 && lo < Target(cfg, height)
    ensures OnTrack(cfg, [], lo, lo, Target(cfg, height), Wrap(lo + 1)) && NoneWraps([])
  {
    hide Wrap, Target, ScanOk, Tiles;
    ScanStarts(cfg, lo, height);
    TilesEmpty(lo, cfg.maxBlocks);
  }

  lemma OnTrackMeans(cfg: Config, windows: seq<Window>, lo: nat, last: nat, target: nat, from: nat)
    requires OnTrack(cfg, windows, lo, last, target, from)
    ensures NoneWraps(windows) ==>
              Tiles(windows, lo, last, cfg.maxBlocks) && if from > target then last == target else last < target
  {
    hide NoneWraps, Tiles;
  }

  lemma TrackGoesOn(cfg: Config, windows: seq<Window>, lo: nat, last: nat, target: nat, from: nat, w: Window)
    requires OnTrack(cfg, windows, lo, last, target, from) && from <= target
    requires w.from == from && w.to == WindowEnd(cfg, from, target) && w.size == cfg.maxBlocks
    ensures OnTrack(cfg, windows + [w], lo, w.to, target, Wrap(from + cfg.maxBlocks))
    ensures NoneWraps(windows) && target + cfg.maxBlocks < U64 ==> NoneWraps(windows + [w])
  {
    hide WindowEnd, Wrap, Tiles, ScanOk, NoneWraps;
    OneMoreGoesOn(windows, w);
    if NoneWraps(windows + [w]) {
      ScanNext(cfg, last, target, from);
      TilesSnoc(windows, lo, last, cfg.maxBlocks, w);
    }
  }

  /** How a tick ended: at its target, at a failure that the next tick will retry,
      or with the death of the process. */
  datatype TickEnd = Finished | BrokenOff | Killed

  class Watcher {
    const api: Ledger
    var cfg: Config
    var last: nat
    var saved: Option<nat>
    ghost var origin: nat
    ghost var accepted: seq<Window>
    ghost var unwrapped: bool

    ghost function View(phase: Phase): Sys
      reads this, api
    {
      Sys(cfg, api.State(), saved, phase, origin, accepted, unwrapped)
    }

    constructor (cfg: Config, api: Ledger)
      ensures this.cfg == cfg && this.api == api && View(Down) == Sys(cfg, api.State(), None, Down, 0, [], true)
    {
      this.cfg, this.api := cfg, api;
      last, saved, origin, accepted, unwrapped := 0, None, 0, [], true;
    }

    /** Reads the checkpoint, or records the current head as the place to start
        from. An unreadable file is given up on. */
    method Start(config: Config, readable: bool, height: Option<nat>, saveOk: bool) returns (running: bool)
      requires ConfigOk(config) && (height.Some? ==> height.value < U64)
      modifies this
      ensures SysEnabled(old(View(Down)), SysAction.Start(config, readable, height, saveOk))
      ensures SysApply(old(View(Down)), SysAction.Start(config, readable, height, saveOk)) ==
              View(if running then Idle(last) else Down)
      ensures cfg == config && accepted == old(accepted) && unwrapped == old(unwrapped)
      ensures readable && old(saved).Some? ==>
                running && last == old(saved).value && saved == old(saved) && origin == old(origin)
      ensures readable && old(saved).None? && height.Some? && saveOk ==>
                running && last == height.value && saved == height && origin == height.value
      ensures !readable || (old(saved).None? && (height.None? || !saveOk)) ==>
                !running && saved == old(saved) && origin == old(origin)
    {
      cfg := config;
      if !readable {
        return false;
      }
      if saved.Some? {
        last := saved.value;
        return true;
      }
      if height.None? || !saveOk {
        return false;
      }
      last, saved, origin := height.value, height, height.value;
      running := true;
    }

    /** One POST. An error is reported for every outcome but an accepted reply. */
    method Ingest(batch: seq<Transfer>, reply: Reply) returns (ok: bool)
      modifies api
      ensures ok <==> reply.Heard? && ValidBatch(batch)
      ensures api.State() == if reply.Lost? then old(api.State()) else Steps.Ingest(old(api.State()), batch)
    {
      if reply.Lost? {
        return false;
      }
      var answer := api.IngestEvents(batch);
      ok := reply.Heard? && answer.Some?;
    }

    /** Posts a window's events in batches of at most 500 and stops at the first
        error. It succeeds exactly if every event is acceptable and every reply
        that it waits for comes back; the table is then that of one unbounded batch. */
    method IngestChunked(events: seq<Transfer>, replies: nat -> Reply, used: nat,
                         ghost s: Sys, ghost trace: seq<SysAction>, ghost at: Phase)
      returns (ok: bool, usedAfter: nat, ghost traceAfter: seq<SysAction>)
      requires at.Posting? && at.events == events && at.start == 0
      requires SysLegalRun(s, trace) && SysExec(s, trace) == View(at)
      modifies api
      ensures SysLegalRun(s, traceAfter)
      ensures SysExec(s, traceAfter) == View(if ok then at.(start := |events|) else Idle(at.last))
      ensures ok ==> api.State() == old(api.State()).(events := IngestAll(old(api.events), events).events)
      ensures used <= usedAfter && (ok <==> HeardAll(replies, used, usedAfter) && AllValid(events))
      ensures ok ==> usedAfter - used == (|events| + 499) / 500
    {
      hide SysLegalRun, SysExec, IngestAll, ValidTransfer, Recorded, HeardAll;
      ghost var before := api.State();
      traceAfter, usedAfter := trace, used;
      var start := 0;
      ChunkStart(before.events, events);
      NoneHeard(replies, used);
      while start < |events|
        invariant start <= |events| && used <= usedAfter
        invariant SysLegalRun(s, traceAfter) && SysExec(s, traceAfter) == View(at.(start := start))
        invariant api.State() == before.(events := IngestAll(before.events, events[..start]).events)
        invariant HeardAll(replies, used, usedAfter) && AllValid(events[..start])
        invariant start == Min(500 * (usedAfter - used), |events|)
        invariant 500 * (usedAfter - used) < |events| + 500
      {
        var end := Min(start + MAX_BATCH, |events|);
        var batch := events[start..end];
        var reply := replies(usedAfter);
        ghost var now := View(at.(start := start));
        assert batch == Chunk(events, start);
        ok := Ingest(batch, reply);
        OneMoreHeard(replies, used, usedAfter);
        ChunkIsValid(events, start);
        usedAfter := usedAfter + 1;
        ExtendPost(s, traceAfter, now, reply);
        traceAfter := traceAfter + [Post(reply)];
        if !ok {
          return;
        }
        IngestFold.IngestConcat(before.events, events[..start], batch);
        assert events[..start] + batch == events[..end];
        start := end;
      }
      assert events[..|events|] == events;
      ok := true;
    }

    /** The events of the logs that decode, in order. */
    method Collect(logs: Logs) returns (events: seq<Transfer>)
      ensures events == Decode(cfg, logs) && RepeatsAll(cfg.hotAddress, logs, events)
    {
      events := [];
      for k := 0 to |logs|
        invariant events == Decode(cfg, logs[..k])
      {
        DecodeSnoc(cfg, logs, k);
        var l := logs[k];
        if l.amount.None? {
          continue;
        }
        if l.index.None? {
          continue;
        }
        if |l.topics| < 3 {
          continue;
        }
        events := events + [Transfer(Lower(l.txHash), l.index.value, l.block, Some(l.blockHash), Lower(l.address),
                                     "0x" + TrimTopic(l.topics[1]), Lower(cfg.hotAddress), l.amount.value)];
      }
      assert logs[..|logs|] == logs;
      DecodeRepeats(cfg, logs);
    }

    /** One window: fetch, post, and only then move the checkpoint. On any failure
        nothing but the ledger has changed. */
    method ScanWindow(target: nat, from: nat, logs: Option<Logs>, replies: nat -> Reply, used: nat, saveOk: bool,
                      ghost s: Sys, ghost trace: seq<SysAction>)
      returns (ok: bool, usedAfter: nat, ghost traceAfter: seq<SysAction>)
      requires from <= target
      requires SysLegalRun(s, trace) && SysExec(s, trace) == View(Scanning(last, target, from))
      modifies this, api
      ensures SysLegalRun(s, traceAfter)
      ensures SysExec(s, traceAfter) ==
              View(if ok then Scanning(last, target, Wrap(from + cfg.maxBlocks)) else Idle(last))
      ensures cfg == old(cfg) && origin == old(origin)
      ensures unwrapped == (old(unwrapped) && (ok ==> GoesOn(cfg, from)))
      ensures !ok ==> last == old(last) && saved == old(saved) && accepted == old(accepted)
      ensures ok ==>
                && logs.Some? && last == WindowEnd(cfg, from, target)
                && accepted == old(accepted) + [Window(from, last, Decode(cfg, logs.value), cfg.maxBlocks)]
                && saved == (if saveOk then Some(last) else old(saved))
                && last <= target
                && EndToEnd.HoldsLogs(cfg.hotAddress, logs.value, old(api.events), api.events)
      ensures used <= usedAfter
      ensures ok <==> logs.Some? && AllAcceptable(cfg, logs.value) && HeardAll(replies, used, usedAfter)
    {
      hide SysLegalRun, SysExec, Decode, AllValid, AllAcceptable, HeardAll, WindowEnd, Wrap, IngestAll;
      hide RepeatsAll, EndToEnd.HoldsLogs;
      usedAfter := used;
      var to := WindowEnd(cfg, from, target);
      ExtendGetLogs(s, trace, View(Scanning(last, target, from)), logs);
      traceAfter := trace + [GetLogs(logs)];
      if logs.None? {
        return false, used, traceAfter;
      }
      var events := Collect(logs.value);
      DecodedAreAcceptable(cfg, logs.value);
      ghost var posting := Posting(last, target, from, to, events, 0);
      ok, usedAfter, traceAfter := IngestChunked(events, replies, used, s, traceAfter, posting);
      if !ok {
        return;
      }
      EndToEnd.IngestHoldsLogs(cfg.hotAddress, logs.value, events, old(api.events));
      EndsByTarget(cfg, from, target);
      ExtendClose(s, traceAfter, View(posting.(start := |events|)), saveOk);
      traceAfter := traceAfter + [CloseWindow(saveOk)];
      accepted := accepted + [Window(from, to, events, cfg.maxBlocks)];
      unwrapped := unwrapped && GoesOn(cfg, from);
      last := to;
      if saveOk {
        saved := Some(last);
      }
    }

    /** One poll. The answers of the node, the API and the file system come from
        outside, one per call; `asked` and `used` count the calls to the node and to
        the API. `lifetime` is the number of windows after which the process dies
        if the tick is not over by then. */
    method Tick(height: Option<nat>, answers: nat -> Option<Logs>, replies: nat -> Reply, saves: nat -> bool,
                lifetime: nat)
      returns (end: TickEnd, asked: nat, used: nat, ghost trace: seq<SysAction>)
      requires ConfigOk(cfg) && (height.Some? ==> height.value < U64)
      modifies this, api
      ensures SysLegalRun(old(View(Idle(last))), trace)
      ensures SysExec(old(View(Idle(last))), trace) == View(if end.Killed? then Down else Idle(last))
      ensures cfg == old(cfg) && old(accepted) <= accepted
      ensures height.None? ==> end.BrokenOff? && trace == []
      ensures height.Some? ==> (end.BrokenOff? <==> !NothingFailed(cfg, answers, asked, replies, used))
      ensures |accepted| - |old(accepted)| == if height.Some? && end.BrokenOff? then asked - 1 else asked
      ensures end.Killed? ==> asked == lifetime
      ensures height.Some? && height.value > cfg.confirmations ==>
                forall k :: |old(accepted)| <= k < |accepted| ==> accepted[k].to + cfg.confirmations <= height.value
      ensures height.Some? && Target(cfg, height.value) + cfg.maxBlocks < U64 ==> NoneWraps(accepted[|old(accepted)|..])
      ensures height.Some? && NoneWraps(accepted[|old(accepted)|..]) ==>
                && Tiles(accepted[|old(accepted)|..], old(last), last, cfg.maxBlocks)
                && var aim := if height.value > cfg.confirmations then height.value - cfg.confirmations
                              else height.value;
                   if end.Finished? then last == Max(old(last), aim) else last < aim
    {
      hide SysLegalRun, SysExec, SysApply, SysEnabled, Target, Tiles, NothingFailed, OnTrack, NoneWraps;
      hide AllAcceptable, HeardAll, ScanOk, Wrap, WindowEnd, Decode, ConfigOk;
      ghost var s, lo, earlier, windows := View(Idle(last)), last, accepted, [];
      trace, asked, used := [], 0, 0;
      EmptyRun(s);
      TilesEmpty(last, cfg.maxBlocks);
      NothingYet(cfg, answers, replies);
      assert accepted[|earlier|..] == [];
      if height.None? {
        return BrokenOff, 0, 0, [];
      }
      var target: nat := Target(cfg, height.value);
      if target <= last {
        AimOnNumbers(cfg, height.value);
        NoWindowWraps();
        return Finished, 0, 0, [];
      }
      AimOnNumbers(cfg, height.value);
      TrackStarts(cfg, last, height.value);
      ExtendPoll(s, trace, s, height.value);
      trace := trace + [Poll(height)];
      var from: nat := Wrap(last + 1);
      while from <= target && asked < lifetime
        invariant cfg == s.cfg && asked <= lifetime
        invariant SysLegalRun(s, trace) && SysExec(s, trace) == View(Scanning(last, target, from))
        invariant accepted == earlier + windows && |windows| == asked
        invariant OnTrack(cfg, windows, lo, last, target, from)
        invariant target + cfg.maxBlocks < U64 ==> NoneWraps(windows)
        invariant NothingFailed(cfg, answers, asked, replies, used)
        invariant forall k :: 0 <= k < |windows| ==> windows[k].to <= target
        decreases lifetime - asked
      {
        ghost var at: nat := last;
        OnTrackMeans(cfg, windows, lo, last, target, from);
        var ok, usedAfter;
        ok, usedAfter, trace := ScanWindow(target, from, answers(asked), replies, used, saves(asked), s, trace);
        OneMoreCall(cfg, answers, asked, replies, used, usedAfter);
        asked, used := asked + 1, usedAfter;
        if !ok {
          assert accepted[|earlier|..] == windows;
          return BrokenOff, asked, used, trace;
        }
        ghost var w := accepted[|earlier + windows|];
        TrackGoesOn(cfg, windows, lo, at, target, from, w);
        windows := windows + [w];
        from := Wrap(from + cfg.maxBlocks);
      }
      OnTrackMeans(cfg, windows, lo, last, target, from);
      assert accepted[|earlier|..] == windows;
      if from <= target {
        ExtendCrash(s, trace, View(Scanning(last, target, from)));
        return Killed, asked, used, trace + [Crash];
      }
      ExtendEnd(s, trace, View(Scanning(last, target, from)));
      end, trace := Finished, trace + [EndTick];
    }
  }

  // ------------------------------------------------------- wrapped scans

  lemma ExtendStart(s: Sys, trace: seq<SysAction>, now: Sys, cfg: Config, height: nat)
    requires SysLegalRun(s, trace) && SysExec(s, trace) == now
    requires now.phase.Down? && now.saved.None? && ConfigOk(cfg) && height < U64
    ensures var a := SysAction.Start(cfg, true, Some(height), true);
            && SysLegalRun(s, trace + [a])
            && SysExec(s, trace + [a]) ==
               now.(cfg := cfg, saved := Some(height), phase := Idle(height), origin := height)
  {
    ExtendRun(s, trace, SysAction.Start(cfg, true, Some(height), true));
  }

  /** An empty window, fetched and closed. */
  lemma ExtendWindow(s: Sys, trace: seq<SysAction>, now: Sys) returns (longer: seq<SysAction>, after: Sys)
    requires SysLegalRun(s, trace) && SysExec(s, trace) == now
    requires now.phase.Scanning? && now.phase.from <= now.phase.target
    ensures SysLegalRun(s, longer) && SysExec(s, longer) == after
    ensures var p := now.phase;
            var to := WindowEnd(now.cfg, p.from, p.target);
            && after.phase == Scanning(to, p.target, Wrap(p.from + now.cfg.maxBlocks))
            && after.saved == Some(to) && after.origin == now.origin && after.cfg == now.cfg
  {
    ExtendGetLogs(s, trace, now, Some([]));
    var fetched := SysExec(s, trace + [GetLogs(Some([]))]);
    ExtendClose(s, trace + [GetLogs(Some([]))], fetched, true);
    longer := trace + [GetLogs(Some([]))] + [CloseWindow(true)];
    after := SysExec(s, longer);
  }

  /** Coverage needs its condition: on a chain that has reached the last block
      numbers of a uint64, a reachable scan ends a window at block 0, and the
      checkpoint falls behind the block that the watcher started from. */
  lemma WrappedScanFallsBack(settings: Settings, now: int, hotAddress: string) returns (s: Sys)
    ensures SysReachable(s) && s.saved == Some(0) && s.phase.Scanning? && s.phase.last == 0 && 0 < s.origin
    ensures !Covered(s, 0)
  {
    hide SysLegalRun, SysExec;
    var cfg := Config(3, 1, hotAddress);
    var boot := Boot(cfg, settings, now);
    EmptyRun(boot);
    ExtendStart(boot, [], boot, cfg, U64 - 6);
    var trace := [] + [SysAction.Start(cfg, true, Some(U64 - 6), true)];
    var started := SysExec(boot, trace);
    ExtendPoll(boot, trace, started, U64 - 1);
    trace := trace + [Poll(Some(U64 - 1))];
    var scanning := SysExec(boot, trace);
    var first;
    trace, first := ExtendWindow(boot, trace, scanning);
    trace, s := ExtendWindow(boot, trace, first);
    assert SysLegalRun(Boot(cfg, settings, now), trace) && s == SysExec(Boot(cfg, settings, now), trace);
  }
}
