/** The whole system as a transition system: the ledger, and beside it the
    watcher process, which scans the chain in windows, posts what it finds,
    saves a checkpoint, and may fail at any call, crash and restart. */
module System {
  import opened Basics
  import opened Model
  import opened Steps
  import opened Invariant
  import opened Runs
  import Conservation
  import IngestFold

  const U64: nat := 0x1_0000_0000_0000_0000
  const MAX_BATCH: nat := 500

  /** Go's uint64 addition. */
  function Wrap(n: nat): nat {
    n % U64
  }

  /** What the watcher reads from its environment at every start. */
  datatype Config = Config(maxBlocks: nat, confirmations: nat, hotAddress: string)

  predicate ConfigOk(cfg: Config) {
    0 < cfg.maxBlocks < U64 && 0 < cfg.confirmations < U64
  }

  /** One log as the node returns it. `index` and `amount` are None where the
      quantity or the data is malformed. */
  datatype Log = Log(
    txHash: string,
    index: Option<int>,
    block: int,
    blockHash: string,
    address: string,
    topics: seq<string>,
    amount: Option<int>)

  type Logs = seq<Log>

  function WithoutPrefix(s: string): string {
    if "0x" <= s then s[2..] else s
  }

  /** An address without the zeros that pad it to a topic. */
  function TrimTopic(topic: string): string {
    var h := WithoutPrefix(Lower(topic));
    if |h| == 64 then h[24..] else h
  }

  /** The event to post for a log; None for a log that the watcher skips. */
  function DecodeLog(cfg: Config, l: Log): Option<Transfer> {
    if l.amount.None? || l.index.None? || |l.topics| < 3 then None
    else Some(Transfer(Lower(l.txHash), l.index.value, l.block, Some(l.blockHash), Lower(l.address),
                       "0x" + TrimTopic(l.topics[1]), Lower(cfg.hotAddress), l.amount.value))
  }

  function Decode(cfg: Config, logs: Logs): seq<Transfer> {
    if logs == [] then []
    else
      var last := DecodeLog(cfg, logs[|logs| - 1]);
      Decode(cfg, logs[..|logs| - 1]) + (if last.Some? then [last.value] else [])
  }

  // What a log says, field by field.

  /** The log can be posted: its amount and index are readable, and it has the topics
      of a transfer. */
  predicate Readable(l: Log) {
    l.amount != None && l.index != None && |l.topics| >= 3
  }

  /** The transfer repeats the log: hash, index, block, block hash, contract and amount
      as they are, up to letter case; from the address in topic 1, to the address that
      the watcher was told to watch. */
  predicate Repeats(hotAddress: string, l: Log, t: Transfer) {
    && Readable(l)
    && t.txHash == Lower(l.txHash) && t.logIndex == l.index.value && t.block == l.block
    && t.blockHash == Some(l.blockHash) && t.contractAddress == Lower(l.address) && t.amount == l.amount.value
    && t.toAddress == Lower(hotAddress)
    && (|l.topics[1]| == 66 && l.topics[1][0] == '0' && l.topics[1][1] in "xX" ==>
          t.fromAddress == "0x" + Lower(l.topics[1][26..]))
  }

  /** The transfers repeat the readable logs, one each and in the same order. */
  ghost predicate RepeatsAll(hotAddress: string, logs: Logs, transfers: seq<Transfer>) {
    if logs == [] then transfers == []
    else
      var n := |logs| - 1;
      if Readable(logs[n]) then
        && transfers != []
        && Repeats(hotAddress, logs[n], transfers[|transfers| - 1])
        && RepeatsAll(hotAddress, logs[..n], transfers[..|transfers| - 1])
      else RepeatsAll(hotAddress, logs[..n], transfers)
  }

  lemma TopicPrefix(topic: string)
    requires |topic| == 66 && topic[0] == '0' && topic[1] in "xX"
    ensures TrimTopic(topic) == Lower(topic[26..])
  {
    hide Lower;
    LowerAt(topic, 0);
    LowerAt(topic, 1);
    LowerDrop(topic, 26);
    assert Lower(topic)[..2] == "0x";
    assert Lower(topic)[2..][24..] == Lower(topic)[26..];
  }

  lemma DecodedFields(cfg: Config, l: Log)
    ensures DecodeLog(cfg, l).Some? <==> Readable(l)
    ensures Readable(l) ==> Repeats(cfg.hotAddress, l, DecodeLog(cfg, l).value)
  {
    hide Lower, TrimTopic;
    if Readable(l) && |l.topics[1]| == 66 && l.topics[1][0] == '0' && l.topics[1][1] in "xX" {
      TopicPrefix(l.topics[1]);
    }
  }

  lemma {:induction false} DecodeRepeats(cfg: Config, logs: Logs)
    ensures RepeatsAll(cfg.hotAddress, logs, Decode(cfg, logs))
  {
    hide DecodeLog, Repeats, Readable;
    if logs != [] {
      var n := |logs| - 1;
      DecodedFields(cfg, logs[n]);
      DecodeRepeats(cfg, logs[..n]);
      var before, last := Decode(cfg, logs[..n]), DecodeLog(cfg, logs[n]);
      if last.Some? {
        assert (before + [last.value])[..|before|] == before;
      } else {
        assert before + [] == before;
      }
    }
  }

  /** Where the watcher process stands. */
  datatype Phase =
    | Down
    | Idle(last: nat)
    | Scanning(last: nat, target: nat, from: nat)
    | Posting(last: nat, target: nat, from: nat, to: nat, events: seq<Transfer>, start: nat)

  /** A block range whose events were all accepted; `size` is the limit on its
      length when it was scanned. */
  datatype Window = Window(from: nat, to: nat, events: seq<Transfer>, size: nat)

  /** `saved` is the checkpoint file. History variables: `origin` is the head at the
      first start, `accepted` the windows so far, and `unwrapped` says that none of
      them was followed by a block number beyond the range of uint64. */
  datatype Sys = Sys(cfg: Config, db: Db, saved: Option<nat>, phase: Phase, origin: nat, accepted: seq<Window>,
                     unwrapped: bool)

  function Boot(cfg: Config, settings: Settings, now: int): Sys {
    Sys(cfg, Empty(settings, now), None, Down, 0, [], true)
  }

  /** What became of one POST: it never arrived, it was processed but the reply
      got lost, or the reply came back. */
  datatype Reply = Lost | Unheard | Heard

  datatype SysAction =
    | Api(action: Action)
    | Start(cfg: Config, readable: bool, height: Option<nat>, saveOk: bool)
    | Crash
    | Poll(height: Option<nat>)
    | GetLogs(logs: Option<Logs>)
    | Post(reply: Reply)
    | CloseWindow(saveOk: bool)
    | EndTick

  function Target(cfg: Config, height: nat): nat {
    if cfg.confirmations > 0 && height > cfg.confirmations then height - cfg.confirmations else height
  }

  function WindowEnd(cfg: Config, from: nat, target: nat): nat {
    var to := Wrap(from + cfg.maxBlocks + U64 - 1);
    if to > target then target else to
  }

  function Chunk(events: seq<Transfer>, start: nat): seq<Transfer>
    requires start <= |events|
  {
    events[start..Min(start + MAX_BATCH, |events|)]
  }

  /** The scan may go on from the block after a window that starts at `from`. */
  predicate GoesOn(cfg: Config, from: nat) {
    from + cfg.maxBlocks < U64
  }

  ghost predicate SysEnabled(s: Sys, a: SysAction) {
    match a
    case Api(action) => Enabled(s.db, action)
    case Start(cfg, _, height, _) => s.phase.Down? && ConfigOk(cfg) && (height.Some? ==> height.value < U64)
    case Crash => true
    case Poll(height) => s.phase.Idle? && (height.Some? ==> height.value < U64)
    case GetLogs(_) => s.phase.Scanning? && s.phase.from <= s.phase.target
    case Post(_) => s.phase.Posting? && s.phase.start < |s.phase.events|
    case CloseWindow(_) => s.phase.Posting? && s.phase.start >= |s.phase.events|
    case EndTick => s.phase.Scanning? && s.phase.from > s.phase.target
  }

  ghost function SysApply(s: Sys, a: SysAction): Sys
    requires SysEnabled(s, a)
  {
    match a
    case Api(action) => s.(db := Apply(s.db, action))
    case Start(cfg, readable, height, saveOk) =>
      if !readable then s.(cfg := cfg)
      else if s.saved.Some? then s.(cfg := cfg, phase := Idle(s.saved.value))
      else if height.None? || !saveOk then s.(cfg := cfg)
      else s.(cfg := cfg, saved := height, phase := Idle(height.value), origin := height.value)
    case Crash => s.(phase := Down)
    case Poll(height) =>
      var last := s.phase.last;
      if height.None? || Target(s.cfg, height.value) <= last then s
      else s.(phase := Scanning(last, Target(s.cfg, height.value), Wrap(last + 1)))
    case GetLogs(logs) =>
      var p := s.phase;
      if logs.None? then s.(phase := Idle(p.last))
      else s.(phase := Posting(p.last, p.target, p.from, WindowEnd(s.cfg, p.from, p.target),
                               Decode(s.cfg, logs.value), 0))
    case Post(reply) =>
      var p := s.phase;
      var batch := Chunk(p.events, p.start);
      if reply.Lost? then s.(phase := Idle(p.last))
      else if reply.Unheard? || !ValidBatch(batch) then s.(db := Ingest(s.db, batch), phase := Idle(p.last))
      else s.(db := Ingest(s.db, batch), phase := p.(start := Min(p.start + MAX_BATCH, |p.events|)))
    case CloseWindow(saveOk) =>
      var p := s.phase;
      s.(saved := if saveOk then Some(p.to) else s.saved,
         phase := Scanning(p.to, p.target, Wrap(p.from + s.cfg.maxBlocks)),
         accepted := s.accepted + [Window(p.from, p.to, p.events, s.cfg.maxBlocks)],
         unwrapped := s.unwrapped && GoesOn(s.cfg, p.from))
    case EndTick => s.(phase := Idle(s.phase.last))
  }

  ghost predicate SysLegalRun(s: Sys, actions: seq<SysAction>)
    decreases |actions|, 0
  {
    actions == [] ||
    (SysLegalRun(s, actions[..|actions| - 1])
     && SysEnabled(SysExec(s, actions[..|actions| - 1]), actions[|actions| - 1]))
  }

  ghost function SysExec(s: Sys, actions: seq<SysAction>): Sys
    requires SysLegalRun(s, actions)
    decreases |actions|, 1
  {
    if actions == [] then s else SysApply(SysExec(s, actions[..|actions| - 1]), actions[|actions| - 1])
  }

  // ---------------------------------------------------------- invariant

  ghost predicate CoversBlock(accepted: seq<Window>, b: nat) {
    exists k :: 0 <= k < |accepted| && accepted[k].from <= b <= accepted[k].to
  }

  /** Every block after the origin and up to `last` lies in an accepted window. */
  ghost predicate Covered(s: Sys, last: nat) {
    s.origin <= last && forall b :: s.origin < b <= last ==> CoversBlock(s.accepted, b)
  }

  ghost predicate AllStored(events: seq<ChainEvent>, batch: seq<Transfer>, n: nat) {
    forall k :: 0 <= k < n && k < |batch| ==> ValidTransfer(batch[k]) && Recorded(events, batch[k])
  }

  ghost predicate WindowsStored(events: seq<ChainEvent>, accepted: seq<Window>) {
    forall k :: 0 <= k < |accepted| ==> AllStored(events, accepted[k].events, |accepted[k].events|)
  }

  predicate WindowFits(w: Window) {
    w.from <= w.to < w.from + w.size
  }

  /** Where a scan may stand: at the block after the last accepted one, or past
      its target with everything accepted. */
  predicate ScanOk(cfg: Config, last: nat, target: nat, from: nat) {
    && ConfigOk(cfg) && target < U64
    && ((last < target && from == last + 1) || (last == target && target < from))
  }

  /** What is accepted is stored, whatever the block numbers. */
  ghost predicate Stored(s: Sys) {
    && WindowsStored(s.db.events, s.accepted)
    && (s.phase.Posting? ==>
          s.phase.start <= |s.phase.events| && AllStored(s.db.events, s.phase.events, s.phase.start))
  }

  ghost predicate PhaseOk(s: Sys) {
    match s.phase
    case Down => true
    case Idle(last) => s.saved.Some? && s.saved.value <= last && Covered(s, last)
    case Scanning(last, target, from) =>
      && s.saved.Some? && s.saved.value <= last && Covered(s, last)
      && ScanOk(s.cfg, last, target, from)
    case Posting(last, target, from, to, _, _) =>
      && s.saved.Some? && s.saved.value <= last && Covered(s, last)
      && last < target && ScanOk(s.cfg, last, target, from)
      && to == WindowEnd(s.cfg, from, target)
  }

  /** Where the watcher stands, as long as no block number has wrapped. */
  ghost predicate Gapless(s: Sys) {
    && (!s.phase.Down? ==> ConfigOk(s.cfg))
    && (s.saved.Some? ==> Covered(s, s.saved.value))
    && PhaseOk(s)
    && (forall k :: 0 <= k < |s.accepted| ==> WindowFits(s.accepted[k]))
  }

  ghost predicate SysInv(s: Sys) {
    Inv(s.db) && Stored(s) && (s.unwrapped ==> Gapless(s))
  }

  // -------------------------------------------------------------- steps

  lemma StoredStays(a: Db, b: Db, batch: seq<Transfer>, n: nat)
    requires Later(a, b) && AllStored(a.events, batch, n)
    ensures AllStored(b.events, batch, n)
  {
    forall k | 0 <= k < n && k < |batch|
      ensures Recorded(b.events, batch[k])
    {
      var r :| 0 <= r < |a.events| && SameKey(a.events[r].log, Canonical(batch[k]));
      assert b.events[r].log == a.events[r].log;
    }
  }

  lemma WindowsStay(a: Db, b: Db, accepted: seq<Window>)
    requires WindowsStored(a.events, accepted) && Later(a, b)
    ensures WindowsStored(b.events, accepted)
  {
    hide Later;
    forall k | 0 <= k < |accepted|
      ensures AllStored(b.events, accepted[k].events, |accepted[k].events|)
    {
      StoredStays(a, b, accepted[k].events, |accepted[k].events|);
    }
  }

  /** The ledger moves on: the watcher's side is not disturbed. */
  lemma LedgerMoves(s: Sys, db: Db)
    requires SysInv(s) && Inv(db) && Later(s.db, db)
    ensures SysInv(s.(db := db))
  {
    hide Inv, Later, WindowsStored;
    WindowsStay(s.db, db, s.accepted);
    if s.phase.Posting? {
      StoredStays(s.db, db, s.phase.events, s.phase.start);
    }
  }

  lemma ChunkIsStored(s: Sys)
    requires SysInv(s) && s.phase.Posting? && s.phase.start < |s.phase.events|
    requires ValidBatch(Chunk(s.phase.events, s.phase.start))
    ensures var p := s.phase;
            AllStored(Ingest(s.db, Chunk(p.events, p.start)).events, p.events, Min(p.start + MAX_BATCH, |p.events|))
  {
    hide Inv;
    var p := s.phase;
    var batch := Chunk(p.events, p.start);
    var after := Ingest(s.db, batch);
    IngestStep(s.db, batch);
    StoredStays(s.db, after, p.events, p.start);
    IngestFold.AllRecorded(s.db.events, batch);
    forall k | p.start <= k < Min(p.start + MAX_BATCH, |p.events|)
      ensures ValidTransfer(p.events[k]) && Recorded(after.events, p.events[k])
    {
      assert batch[k - p.start] == p.events[k];
    }
  }

  lemma PostKeeps(s: Sys, reply: Reply)
    requires SysInv(s) && SysEnabled(s, Post(reply))
    ensures SysInv(SysApply(s, Post(reply)))
  {
    hide Inv;
    var p := s.phase;
    var batch := Chunk(p.events, p.start);
    IngestStep(s.db, batch);
    LedgerMoves(s, Ingest(s.db, batch));
    if reply.Heard? && ValidBatch(batch) {
      ChunkIsStored(s);
    }
  }

  lemma CoverageGrows(s: Sys, w: Window, last: nat)
    requires Covered(s, last) && w.from == last + 1 && w.from <= w.to
    ensures Covered(s.(accepted := s.accepted + [w]), w.to)
    ensures forall l: nat :: Covered(s, l) ==> Covered(s.(accepted := s.accepted + [w]), l)
  {
    var after := s.(accepted := s.accepted + [w]);
    assert after.accepted[|s.accepted|] == w;
    forall b: nat | CoversBlock(s.accepted, b)
      ensures CoversBlock(after.accepted, b)
    {
      var k :| 0 <= k < |s.accepted| && s.accepted[k].from <= b <= s.accepted[k].to;
      assert after.accepted[k] == s.accepted[k];
    }
    forall b | s.origin < b <= w.to
      ensures CoversBlock(after.accepted, b)
    {
      if b <= last {
        assert CoversBlock(s.accepted, b);
      }
    }
  }

  lemma ScanStep(cfg: Config, last: nat, target: nat, from: nat, to: nat)
    requires last < target && ScanOk(cfg, last, target, from) && GoesOn(cfg, from)
    requires to == WindowEnd(cfg, from, target)
    ensures from == last + 1 && from <= to < from + cfg.maxBlocks
    ensures ScanOk(cfg, to, target, Wrap(from + cfg.maxBlocks))
  {
  }

  lemma SameCover(a: Sys, b: Sys)
    requires a.accepted == b.accepted && a.origin == b.origin
    ensures forall l: nat :: Covered(a, l) <==> Covered(b, l)
  {
  }

  lemma CloseKeeps(s: Sys, saveOk: bool)
    requires SysInv(s) && SysEnabled(s, CloseWindow(saveOk))
    ensures SysInv(SysApply(s, CloseWindow(saveOk)))
  {
    hide Inv, CoversBlock, Covered, AllStored;
    var p := s.phase;
    var w := Window(p.from, p.to, p.events, s.cfg.maxBlocks);
    var after := SysApply(s, CloseWindow(saveOk));
    assert after.accepted == s.accepted + [w];
    if after.unwrapped {
      ScanStep(s.cfg, p.last, p.target, p.from, p.to);
      CoverageGrows(s, w, p.last);
      SameCover(s.(accepted := s.accepted + [w]), after);
    }
  }

  /** The steps that store nothing. */
  lemma PhaseKeeps(s: Sys, a: SysAction)
    requires SysInv(s) && SysEnabled(s, a) && (a.Start? || a.Crash? || a.Poll? || a.GetLogs? || a.EndTick?)
    ensures SysInv(SysApply(s, a))
  {
    hide Inv;
  }

  /** Every step of ledger or watcher keeps the system invariant. */
  lemma SysStepKeeps(s: Sys, a: SysAction)
    requires SysInv(s) && SysEnabled(s, a)
    ensures SysInv(SysApply(s, a)) && Later(s.db, SysApply(s, a).db)
  {
    hide Inv, Later, CoversBlock, WindowsStored;
    LaterReflexive(s.db);
    match a
    case Api(action) =>
      StepKeeps(s.db, action);
      LedgerMoves(s, Apply(s.db, action));
    case Start(_, _, _, _) => PhaseKeeps(s, a);
    case Crash => PhaseKeeps(s, a);
    case Poll(_) => PhaseKeeps(s, a);
    case GetLogs(_) => PhaseKeeps(s, a);
    case Post(reply) =>
      PostKeeps(s, reply);
      IngestStep(s.db, Chunk(s.phase.events, s.phase.start));
    case CloseWindow(saveOk) => CloseKeeps(s, saveOk);
    case EndTick => PhaseKeeps(s, a);
  }

  lemma {:induction false} SysRunKeeps(s: Sys, actions: seq<SysAction>)
    requires SysInv(s) && SysLegalRun(s, actions)
    ensures SysInv(SysExec(s, actions)) && Later(s.db, SysExec(s, actions).db)
  {
    hide SysInv, Later;
    if actions == [] {
      LaterReflexive(s.db);
    } else {
      var before := actions[..|actions| - 1];
      SysRunKeeps(s, before);
      SysStepKeeps(SysExec(s, before), actions[|actions| - 1]);
      LaterTransitive(s.db, SysExec(s, before).db, SysExec(s, actions).db);
    }
  }

  ghost predicate SysReachable(s: Sys) {
    exists cfg, settings, now, actions ::
      SysLegalRun(Boot(cfg, settings, now), actions) && s == SysExec(Boot(cfg, settings, now), actions)
  }

  lemma BootInv(cfg: Config, settings: Settings, now: int)
    ensures SysInv(Boot(cfg, settings, now))
  {
    hide Inv;
    EmptyInv(settings, now);
  }

  lemma SysReachableInv(s: Sys)
    requires SysReachable(s)
    ensures SysInv(s)
  {
    hide SysInv;
    var cfg, settings, now, actions :|
      SysLegalRun(Boot(cfg, settings, now), actions) && s == SysExec(Boot(cfg, settings, now), actions);
    BootInv(cfg, settings, now);
    SysRunKeeps(Boot(cfg, settings, now), actions);
  }

  // ----------------------------------------------------------- theorems

  ghost function RowsFor(events: seq<ChainEvent>, t: Transfer): set<nat> {
    set r | 0 <= r < |events| && SameKey(events[r].log, Canonical(t)) :: r
  }

  ghost function CreditsFor(payments: seq<Payment>, t: Transfer): set<nat> {
    set p | 0 <= p < |payments| && payments[p].txHash == Canonical(t).txHash
            && payments[p].logIndex == t.logIndex :: p
  }

  lemma SameKeySameRow(db: Db, a: nat, b: nat)
    requires Inv(db) && a < |db.events| && b < |db.events| && SameKey(db.events[a].log, db.events[b].log)
    ensures a == b
  {
  }

  lemma OneRowPerKey(db: Db, t: Transfer)
    requires Inv(db)
    ensures forall a, b :: a in RowsFor(db.events, t) && b in RowsFor(db.events, t) ==> a == b
  {
    forall a, b | a in RowsFor(db.events, t) && b in RowsFor(db.events, t)
      ensures a == b
    {
      SameKeySameRow(db, a, b);
    }
  }

  lemma OneCreditPerKey(db: Db, t: Transfer)
    requires Inv(db)
    ensures forall a, b :: a in CreditsFor(db.payments, t) && b in CreditsFor(db.payments, t) ==> a == b
  {
    OneRowPerKey(db, t);
    forall a, b | a in CreditsFor(db.payments, t) && b in CreditsFor(db.payments, t)
      ensures a == b
    {
      assert PaymentOk(db.invoices, db.events, db.payments[a]);
      assert PaymentOk(db.invoices, db.events, db.payments[b]);
      assert db.payments[a].event in RowsFor(db.events, t);
      assert db.payments[b].event in RowsFor(db.events, t);
    }
  }

  /** Exactly once, end to end: whatever failed, crashed or was replayed, a log
      has at most one event row and was credited at most once; and a log that was
      returned for an accepted window has exactly one row. */
  lemma ExactlyOnce(s: Sys, t: Transfer)
    requires SysReachable(s)
    ensures |RowsFor(s.db.events, t)| <= 1
    ensures |CreditsFor(s.db.payments, t)| <= 1
    ensures (exists k :: 0 <= k < |s.accepted| && t in s.accepted[k].events) ==> |RowsFor(s.db.events, t)| == 1
  {
    hide SysReachable;
    SysReachableInv(s);
    var rows := RowsFor(s.db.events, t);
    OneRowPerKey(s.db, t);
    Conservation.AtMostOne(rows);
    OneCreditPerKey(s.db, t);
    Conservation.AtMostOne(CreditsFor(s.db.payments, t));
    if k :| 0 <= k < |s.accepted| && t in s.accepted[k].events {
      var j :| 0 <= j < |s.accepted[k].events| && s.accepted[k].events[j] == t;
      var r :| 0 <= r < |s.db.events| && SameKey(s.db.events[r].log, Canonical(t));
      assert r in rows;
    }
  }

  /** What is accepted is stored, in every run. */
  lemma AcceptedIsStored(s: Sys)
    requires SysReachable(s)
    ensures WindowsStored(s.db.events, s.accepted)
  {
    hide SysReachable, Inv;
    SysReachableInv(s);
  }

  /** Coverage, as long as no block number has wrapped: the saved checkpoint never
      runs ahead of the watcher, and every block after the first head and up to
      either of them was in an accepted window of legal size. */
  lemma Coverage(s: Sys)
    requires SysReachable(s) && s.unwrapped
    ensures s.saved.Some? ==> Covered(s, s.saved.value)
    ensures !s.phase.Down? ==> s.saved.Some? && s.saved.value <= s.phase.last && Covered(s, s.phase.last)
    ensures forall k :: 0 <= k < |s.accepted| ==> WindowFits(s.accepted[k])
    ensures WindowsStored(s.db.events, s.accepted)
  {
    hide SysReachable, Inv;
    SysReachableInv(s);
  }

  /** A tick that is not broken off has reached its target. */
  lemma FinishedTickReachedTarget(s: Sys)
    requires SysReachable(s) && s.unwrapped && SysEnabled(s, EndTick)
    ensures SysApply(s, EndTick).phase == Idle(s.phase.target)
  {
    hide SysReachable, Inv;
    SysReachableInv(s);
  }

  /** A window with an event that the API refuses is never accepted: neither the
      watcher nor the checkpoint passes it while the node reports it. */
  lemma RefusedEventHoldsTheScan(s: Sys, k: nat)
    requires SysReachable(s) && s.phase.Posting? && k < |s.phase.events| && !ValidTransfer(s.phase.events[k])
    ensures s.phase.start <= k
    ensures !SysEnabled(s, CloseWindow(true)) && !SysEnabled(s, CloseWindow(false))
  {
    hide SysReachable, Inv;
    SysReachableInv(s);
  }

  /** The uint64 sum advances exactly if it does not reach 2^64; so a scan whose
      target is at least maxBlocks short of that never wraps. */
  lemma ScanAdvancesIff(cfg: Config, from: nat, target: nat)
    requires 0 < cfg.maxBlocks < U64 && from <= target < U64
    ensures from < Wrap(from + cfg.maxBlocks) <==> from + cfg.maxBlocks < U64
    ensures target + cfg.maxBlocks < U64 ==>
              && Wrap(from + cfg.maxBlocks) == from + cfg.maxBlocks
              && GoesOn(cfg, from)
              && WindowEnd(cfg, from, target) == Min(from + cfg.maxBlocks - 1, target)
  {
  }

  // ------------------------------------------------ restarts and heights

  /** A first start with a reachable node comes up at the head, saved before; every
      later one comes up at the saved block, wherever the head is; a start that finds
      the file unreadable, or no file and no head or no way to save it, does not. */
  lemma StartsExactly(s: Sys, cfg: Config, readable: bool, height: Option<nat>, saveOk: bool)
    requires SysEnabled(s, Start(cfg, readable, height, saveOk))
    ensures var after := SysApply(s, Start(cfg, readable, height, saveOk));
            var first := readable && s.saved == None && height != None && saveOk;
            && after.cfg == cfg && after.db == s.db && after.accepted == s.accepted
            && after.phase == (if readable && s.saved != None then Idle(s.saved.value)
                               else if first then Idle(height.value) else Down)
            && after.saved == (if first then height else s.saved)
            && after.origin == (if first then height.value else s.origin)
  {
  }

  /** The starting block is chosen once: no step moves it after a checkpoint exists,
      and no step takes the checkpoint away. */
  lemma OriginStays(s: Sys, a: SysAction)
    requires SysEnabled(s, a) && s.saved.Some?
    ensures SysApply(s, a).saved.Some? && SysApply(s, a).origin == s.origin
  {
  }

  lemma {:induction false} OriginStaysInRuns(s: Sys, actions: seq<SysAction>)
    requires SysLegalRun(s, actions) && s.saved.Some?
    ensures SysExec(s, actions).saved.Some? && SysExec(s, actions).origin == s.origin
  {
    hide SysEnabled, SysApply;
    if actions != [] {
      var before := actions[..|actions| - 1];
      OriginStaysInRuns(s, before);
      OriginStays(SysExec(s, before), actions[|actions| - 1]);
    }
  }

  /** Coverage from the first start on: if the watcher first came up at head h, then
      after any run, with any crashes and restarts, every block after h and up to the
      checkpoint - and up to the position while the process is up - was in an accepted
      window of legal size, as long as no block number has wrapped. */
  lemma CoveredSinceFirstStart(s: Sys, cfg: Config, h: nat, actions: seq<SysAction>)
    requires SysInv(s) && s.saved.None? && SysEnabled(s, Start(cfg, true, Some(h), true))
    requires SysLegalRun(SysApply(s, Start(cfg, true, Some(h), true)), actions)
    requires SysExec(SysApply(s, Start(cfg, true, Some(h), true)), actions).unwrapped
    ensures var end := SysExec(SysApply(s, Start(cfg, true, Some(h), true)), actions);
            && end.saved.Some? && h <= end.saved.value
            && (forall b :: h < b <= end.saved.value ==> CoversBlock(end.accepted, b))
            && (!end.phase.Down? ==>
                  && end.saved.value <= end.phase.last
                  && forall b :: h < b <= end.phase.last ==> CoversBlock(end.accepted, b))
  {
    hide Inv, SysEnabled, SysApply, SysLegalRun, SysExec, CoversBlock;
    var a := Start(cfg, true, Some(h), true);
    SysStepKeeps(s, a);
    StartsExactly(s, cfg, true, Some(h), true);
    SysRunKeeps(SysApply(s, a), actions);
    OriginStaysInRuns(SysApply(s, a), actions);
  }

  /** A scan aims at the block `confirmations` behind the head, or at the head of a
      chain that is not longer than that. */
  lemma ScanAimsBehindHead(s: Sys, h: nat)
    requires SysEnabled(s, Poll(Some(h)))
    ensures var aim := if h > s.cfg.confirmations then h - s.cfg.confirmations else h;
            var after := SysApply(s, Poll(Some(h)));
            if aim <= s.phase.last then after == s
            else after.phase.Scanning? && after.phase.target == aim && after.phase.last == s.phase.last
  {
  }
}
