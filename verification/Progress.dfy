/** When the watcher catches up with the chain, and what a throw in the middle of a batch does to that. */
module Progress {
  import opened Wrappers
  import opened Chain
  import opened Watcher

  // ── complete reads ───────────────────────────────────────────────────────────

  /** The logs of one epoch among those of a batch, in order. */
  function EpochPart(batch: seq<Event>, epoch: nat): seq<Event> {
    if batch == [] then []
    else if batch[0].log.epoch == epoch then [batch[0]] + EpochPart(batch[1..], epoch)
    else EpochPart(batch[1..], epoch)
  }

  /** The epoch's advances in the first `n` blocks. */
  function Through(cfg: Config, chain: Blocks, n: int): seq<Event> {
    if n <= 0 then [] else if n <= |chain| then EpochEvents(cfg.blockHash, chain[..n], cfg.epoch)
    else EpochEvents(cfg.blockHash, chain, cfg.epoch)
  }

  /** A sorted batch of all logs of the blocks after `scanned` up to `safeHead`; none of a later epoch. */
  ghost predicate Complete(cfg: Config, chain: Blocks, scanned: int, safeHead: int, batch: seq<Event>) {
    && (forall ev :: ev in batch ==> ev.log.epoch <= cfg.epoch)
    && Through(cfg, chain, safeHead + 1) == Through(cfg, chain, scanned + 1) + EpochPart(batch, cfg.epoch)
  }

  function Stamped(block: Block, number: nat, blockHash: Hash): (r: seq<Event>)
    ensures |r| == |block| && forall i :: 0 <= i < |r| ==> r[i] == Event(number, blockHash, block[i])
  {
    if block == [] then []
    else Stamped(block[..|block| - 1], number, blockHash) + [Event(number, blockHash, block[|block| - 1])]
  }

  /** All logs of the blocks from `a` on and before `b`, in log order: what a full eth_getLogs returns, sorted. */
  function Range(cfg: Config, chain: Blocks, a: nat, b: nat): seq<Event>
    requires a <= b <= |chain|
  {
    if a == b then []
    else Range(cfg, chain, a, b - 1) + Stamped(chain[b - 1], b - 1, cfg.blockHash(chain[..b]))
  }

  lemma {:induction false} EpochPartOfConcat(s: seq<Event>, t: seq<Event>, epoch: nat)
    ensures EpochPart(s + t, epoch) == EpochPart(s, epoch) + EpochPart(t, epoch)
    decreases |s|
  {
    if s == [] {
      assert s + t == t;
    } else {
      assert (s + t)[1..] == s[1..] + t;
      EpochPartOfConcat(s[1..], t, epoch);
    }
  }

  lemma {:induction false} EpochPartOfBlock(block: Block, number: nat, blockHash: Hash, epoch: nat)
    ensures EpochPart(Stamped(block, number, blockHash), epoch) == EpochEventsOf(block, number, blockHash, epoch)
  {
    if block != [] {
      var init, last := block[..|block| - 1], [Event(number, blockHash, block[|block| - 1])];
      EpochPartOfBlock(init, number, blockHash, epoch);
      EpochPartOfConcat(Stamped(init, number, blockHash), last, epoch);
      assert last[1..] == [];
    }
  }

  lemma {:induction false} RangeContinues(cfg: Config, chain: Blocks, a: nat, b: nat)
    requires a <= b <= |chain|
    ensures Through(cfg, chain, b) == Through(cfg, chain, a) + EpochPart(Range(cfg, chain, a, b), cfg.epoch)
  {
    if a < b {
      RangeContinues(cfg, chain, a, b - 1);
      EpochPartOfBlock(chain[b - 1], b - 1, cfg.blockHash(chain[..b]), cfg.epoch);
      EpochPartOfConcat(Range(cfg, chain, a, b - 1), Stamped(chain[b - 1], b - 1, cfg.blockHash(chain[..b])),
                        cfg.epoch);
      assert chain[..b][..b - 1] == chain[..b - 1];
    }
  }

  /** The full sorted read of a range is complete, on a chain without logs of a later epoch. */
  lemma RangeIsComplete(cfg: Config, chain: Blocks, scanned: nat, safeHead: nat)
    requires scanned <= safeHead < |chain|
    requires forall ev :: ev in Range(cfg, chain, scanned + 1, safeHead + 1) ==> ev.log.epoch <= cfg.epoch
    ensures Complete(cfg, chain, scanned, safeHead, Range(cfg, chain, scanned + 1, safeHead + 1))
  {
    RangeContinues(cfg, chain, scanned + 1, safeHead + 1);
  }

  /** An advance with the configured pins and the word count of its bytes. */
  predicate Pinned(cfg: Config, log: Log) {
    && log.coreV == cfg.coreV && log.corpus == cfg.corpus && log.frontier == cfg.frontier
    && log.wordCount == cfg.crypto.wordCount(log.patchBytes)
  }

  /** A history the watcher can follow. */
  ghost predicate Acceptable(cfg: Config, events: seq<Event>) {
    LinkedHistory(cfg, events) && forall i :: 0 <= i < |events| ==> Pinned(cfg, events[i].log)
  }

  // ── catching up ──────────────────────────────────────────────────────────────

  lemma NextApplies(cfg: Config, core: Core, applied: seq<Event>, events: seq<Event>)
    requires Replays(cfg, core, applied) && Acceptable(cfg, events) && applied < events
    ensures ApplyChainEvent(cfg, core, events[|applied|]).Some?
  {
    var i := |applied|;
    assert Linked(cfg, events, i) && events[..i] == applied;
    assert events[..i + 1][..i] == applied;
  }

  /** A batch whose advances continue the history is accepted to the end. */
  lemma {:induction false} BatchAccepted(cfg: Config, core: Core, applied: seq<Event>, batch: seq<Event>,
                                         events: seq<Event>)
    requires Replays(cfg, core, applied) && Acceptable(cfg, events)
    requires applied + EpochPart(batch, cfg.epoch) <= events
    requires forall ev :: ev in batch ==> ev.log.epoch <= cfg.epoch
    ensures ApplyBatch(cfg, core, batch).1 && Accepted(cfg, core, batch) == EpochPart(batch, cfg.epoch)
    decreases |batch|
  {
    if batch != [] {
      var ev, rest := batch[0], batch[1..];
      assert ev in batch && forall e :: e in rest ==> e in batch;
      if ev.log.epoch == cfg.epoch {
        assert events[|applied|] == (applied + EpochPart(batch, cfg.epoch))[|applied|] == ev;
        NextApplies(cfg, core, applied, events);
        CommitReplays(cfg, core, applied, ev);
        Regroup(applied, [ev], EpochPart(rest, cfg.epoch));
        BatchAccepted(cfg, ApplyChainEvent(cfg, core, ev).value, applied + [ev], rest, events);
      } else {
        BatchAccepted(cfg, core, applied, rest, events);
      }
    }
  }

  /** The history is exactly what the scanned part of the chain holds. */
  ghost predicate CaughtUp(cfg: Config, core: Core, applied: seq<Event>, chain: Blocks) {
    applied == Through(cfg, chain, core.lastScannedBlock + 1)
  }

  /** A tick that sees no reorg and reads the whole range of a chain it can follow brings a history that
      was exact up to the last scanned block up to the confirmed head. */
  lemma TickCatchesUp(cfg: Config, core: Core, applied: seq<Event>, r: TickReads)
    requires Binding(cfg) && Recorded(cfg, core, applied) && CaughtUp(cfg, core, applied, r.chain)
    requires Proceeds(cfg, core, r) && !NeedsReorg(core, r.hashes.newest) && r.batch.Some?
    requires r.head.value - cfg.confirmationDepth > core.lastScannedBlock
    requires Complete(cfg, r.chain, core.lastScannedBlock, r.head.value - cfg.confirmationDepth, r.batch.value)
    requires Acceptable(cfg, Through(cfg, r.chain, r.head.value - cfg.confirmationDepth + 1))
    ensures var next := Tick(cfg, core, r);
            && next.lastScannedBlock == r.head.value - cfg.confirmationDepth
            && CaughtUp(cfg, next, TickHistory(cfg, core, applied, r), r.chain)
  {
    ScanCatchesUp(cfg, core, applied, r);
    TickWithoutReorg(cfg, core, applied, r);
  }

  // ── catching up from the start and after a rollback ──────────────────────────

  /** Where a coordinator without snapshots has scanned to. */
  function StartBlock(cfg: Config): nat {
    if cfg.replayFromBlock == 0 then 0 else cfg.replayFromBlock - 1
  }

  lemma ThroughNests(cfg: Config, chain: Blocks, a: int, b: int)
    requires a <= b
    ensures Through(cfg, chain, a) <= Through(cfg, chain, b)
  {
    if 0 < a <= |chain| {
      if b <= |chain| {
        assert chain[..b][..a] == chain[..a];
        EpochEventsPrefix(cfg.blockHash, chain[..b], a, cfg.epoch);
      } else {
        EpochEventsPrefix(cfg.blockHash, chain, a, cfg.epoch);
      }
    }
  }

  lemma ThroughOnChain(cfg: Config, chain: Blocks, n: int, i: nat)
    requires i < |Through(cfg, chain, n)|
    ensures OnChain(cfg.blockHash, chain, Through(cfg, chain, n)[i]) && Through(cfg, chain, n)[i].blockNumber < n
  {
    ThroughIsPrefix(cfg, chain, n);
    EpochEventsOnChain(cfg.blockHash, chain, cfg.epoch, i);
  }

  /** Chains that share a block share everything below it. */
  lemma SharedBelow(cfg: Config, a: Blocks, b: Blocks, height: nat, ev: Event)
    requires Shared(a, b, height)
    requires OnChain(cfg.blockHash, a, ev) && ev.blockNumber <= height
    ensures Canonical(cfg.blockHash, b, ev.blockNumber, ev.blockHash)
  {
    assert a[..height + 1][..ev.blockNumber + 1] == a[..ev.blockNumber + 1];
    assert b[..height + 1][..ev.blockNumber + 1] == b[..ev.blockNumber + 1];
  }

  lemma SharedThrough(cfg: Config, a: Blocks, b: Blocks, height: nat)
    requires Shared(a, b, height)
    ensures Through(cfg, a, height + 1) == Through(cfg, b, height + 1)
  {
  }

  /** The blocks the snapshots name are those of the last advances of the history, numbered from 0. */
  ghost predicate TailBlocks(cfg: Config, snapshots: seq<Snapshot>, applied: seq<Event>) {
    && |snapshots| <= |applied|
    && (forall a :: 0 <= a < |applied| ==> applied[a].log.transitionIndex == a && applied[a].log.epoch == cfg.epoch)
    && (forall j :: 0 <= j < |snapshots| ==>
          && snapshots[j].blockNumber == applied[|applied| - |snapshots| + j].blockNumber
          && snapshots[j].blockHash == applied[|applied| - |snapshots| + j].blockHash)
  }

  lemma ReplayedTailBlocks(cfg: Config, core: Core, applied: seq<Event>)
    requires Replays(cfg, core, applied)
    ensures TailBlocks(cfg, core.snapshots, applied)
  {
    forall a | 0 <= a < |applied|
      ensures applied[a].log.transitionIndex == a && applied[a].log.epoch == cfg.epoch
    {
      assert Linked(cfg, applied, a);
    }
    forall j | 0 <= j < |core.snapshots|
      ensures core.snapshots[j].blockNumber == applied[|applied| - |core.snapshots| + j].blockNumber
      ensures core.snapshots[j].blockHash == applied[|applied| - |core.snapshots| + j].blockHash
    {
      assert SnapshotOf(cfg, core.snapshots[j], applied, |applied| - |core.snapshots| + j);
    }
  }

  /** The advance of the newest survivor, on the old chain. */
  lemma SurvivorApplied(cfg: Config, snapshots: seq<Snapshot>, applied: seq<Event>, before: Blocks, scanned: int,
                        n: nat)
    requires TailBlocks(cfg, snapshots, applied) && applied == Through(cfg, before, scanned + 1)
    requires 0 < n <= |snapshots|
    ensures var ev := applied[|applied| - |snapshots| + n - 1];
            && OnChain(cfg.blockHash, before, ev) && ev.blockNumber == snapshots[n - 1].blockNumber
            && Through(cfg, before, ev.blockNumber + 1) <= applied
  {
    var i := |applied| - |snapshots| + n - 1;
    ThroughOnChain(cfg, before, scanned + 1, i);
    ThroughNests(cfg, before, applied[i].blockNumber + 1, scanned + 1);
  }

  ghost predicate Shared(a: Blocks, b: Blocks, height: nat) {
    height < |a| && height < |b| && a[..height + 1] == b[..height + 1]
  }

  lemma SharedBlocks(cfg: Config, before: Blocks, chain: Blocks, height: nat, blockHash: Hash)
    requires CommitsToPrefix(cfg.blockHash)
    requires Canonical(cfg.blockHash, before, height, blockHash) && Canonical(cfg.blockHash, chain, height, blockHash)
    ensures Shared(before, chain, height)
  {
    SameHashSameEvents(cfg.blockHash, before, chain, height, cfg.epoch);
  }

  /** The old and the new chain share the block of the newest survivor. */
  lemma SurvivorShared(cfg: Config, snapshots: seq<Snapshot>, applied: seq<Event>, before: Blocks, scanned: int,
                       hashes: HashReads, chain: Blocks, n: nat)
    requires CommitsToPrefix(cfg.blockHash) && TailBlocks(cfg, snapshots, applied)
    requires applied == Through(cfg, before, scanned + 1)
    requires HonestHashes(cfg, snapshots, hashes, chain) && n == Surviving(snapshots, hashes.at) > 0
    ensures Shared(before, chain, snapshots[n - 1].blockNumber)
  {
    SurvivorApplied(cfg, snapshots, applied, before, scanned, n);
    SharedBlocks(cfg, before, chain, snapshots[n - 1].blockNumber, snapshots[n - 1].blockHash);
  }

  /** The advances up to the block of the newest survivor are those up to the survivor itself: one more in
      that block would have survived, too. */
  lemma SurvivorEndsItsBlock(cfg: Config, snapshots: seq<Snapshot>, applied: seq<Event>, before: Blocks, scanned: int,
                             hashes: HashReads, chain: Blocks, n: nat)
    requires TailBlocks(cfg, snapshots, applied) && applied == Through(cfg, before, scanned + 1)
    requires HonestHashes(cfg, snapshots, hashes, chain) && n == Surviving(snapshots, hashes.at) > 0
    requires Shared(before, chain, snapshots[n - 1].blockNumber)
    ensures KeptHistory(snapshots, applied, n) == Through(cfg, chain, snapshots[n - 1].blockNumber + 1)
  {
    var height := snapshots[n - 1].blockNumber;
    SurvivorApplied(cfg, snapshots, applied, before, scanned, n);
    NoMoreSurvive(cfg, snapshots, applied, before, hashes, chain, height, n);
    SharedThrough(cfg, before, chain, height);
    SurvivorIsThere(cfg, before, applied, |applied| - |snapshots| + n - 1, height, Through(cfg, before, height + 1));
    KeptIs(snapshots, applied, n, Through(cfg, before, height + 1));
  }

  lemma KeptIs(snapshots: seq<Snapshot>, applied: seq<Event>, n: nat, there: seq<Event>)
    requires 0 < n <= |snapshots| <= |applied| && there <= applied && |there| == |applied| - |snapshots| + n
    ensures KeptHistory(snapshots, applied, n) == there
  {
  }

  lemma SurvivorIsThere(cfg: Config, before: Blocks, applied: seq<Event>, i: nat, height: nat, there: seq<Event>)
    requires forall a :: 0 <= a < |applied| ==> applied[a].log.transitionIndex == a && applied[a].log.epoch == cfg.epoch
    requires i < |applied| && applied[i].blockNumber == height
    requires OnChain(cfg.blockHash, before, applied[i])
    requires there == EpochEvents(cfg.blockHash, before[..height + 1], cfg.epoch) && there <= applied
    ensures i < |there|
  {
    var cut, ev := before[..height + 1], applied[i];
    var own := EpochEventsOf(cut[height], height, cfg.blockHash(cut), cfg.epoch);
    assert ev in own;
    assert there == EpochEvents(cfg.blockHash, cut[..height], cfg.epoch) + own;
    assert ev in there;
    var j :| 0 <= j < |there| && there[j] == ev;
    assert applied[j] == ev;
  }

  lemma NoMoreSurvive(cfg: Config, snapshots: seq<Snapshot>, applied: seq<Event>, before: Blocks, hashes: HashReads,
                      chain: Blocks, height: nat, n: nat)
    requires TailBlocks(cfg, snapshots, applied) && HonestHashes(cfg, snapshots, hashes, chain)
    requires Shared(before, chain, height)
    requires Through(cfg, before, height + 1) <= applied && n == Surviving(snapshots, hashes.at)
    ensures |Through(cfg, before, height + 1)| <= |applied| - |snapshots| + n
  {
    if |applied| - |snapshots| + n < |Through(cfg, before, height + 1)| {
      NextWouldSurvive(cfg, snapshots, applied, before, hashes, chain, height, n);
      assert false;
    }
  }

  lemma NextWouldSurvive(cfg: Config, snapshots: seq<Snapshot>, applied: seq<Event>, before: Blocks, hashes: HashReads,
                         chain: Blocks, height: nat, n: nat)
    requires TailBlocks(cfg, snapshots, applied) && HonestHashes(cfg, snapshots, hashes, chain) && n < |snapshots|
    requires Shared(before, chain, height)
    requires |applied| - |snapshots| + n < |Through(cfg, before, height + 1)|
    requires Through(cfg, before, height + 1) <= applied
    ensures hashes.at(n) == Some(snapshots[n].blockHash)
  {
    var there, k := Through(cfg, before, height + 1), |applied| - |snapshots| + n;
    ThroughOnChain(cfg, before, height + 1, k);
    SharedBelow(cfg, before, chain, height, there[k]);
  }

  /** A rollback puts the scan position where the history ends: what was exact on the old chain is exact, up to
      the block of the newest survivor, on the new one. */
  lemma RollbackStaysExact(cfg: Config, core: Core, applied: seq<Event>, before: Blocks, hashes: HashReads,
                           chain: Blocks)
    requires CommitsToPrefix(cfg.blockHash) && Replays(cfg, core, applied) && CaughtUp(cfg, core, applied, before)
    requires HonestHashes(cfg, core.snapshots, hashes, chain)
    requires Through(cfg, chain, StartBlock(cfg) + 1) == []
    ensures var n := Surviving(core.snapshots, hashes.at);
            CaughtUp(cfg, HandleReorg(cfg, core, hashes.at), KeptHistory(core.snapshots, applied, n), chain)
  {
    ReplayedTailBlocks(cfg, core, applied);
    KeptIsExact(cfg, core.snapshots, applied, before, core.lastScannedBlock, hashes, chain);
    ScannedAfterRollback(cfg, core, hashes.at);
  }

  lemma KeptIsExact(cfg: Config, snapshots: seq<Snapshot>, applied: seq<Event>, before: Blocks, scanned: int,
                    hashes: HashReads, chain: Blocks)
    requires CommitsToPrefix(cfg.blockHash) && TailBlocks(cfg, snapshots, applied)
    requires applied == Through(cfg, before, scanned + 1) && HonestHashes(cfg, snapshots, hashes, chain)
    requires Through(cfg, chain, StartBlock(cfg) + 1) == []
    ensures var n := Surviving(snapshots, hashes.at);
            KeptHistory(snapshots, applied, n)
            == Through(cfg, chain, (if n > 0 then snapshots[n - 1].blockNumber else StartBlock(cfg)) + 1)
  {
    var n := Surviving(snapshots, hashes.at);
    if n > 0 {
      SurvivorShared(cfg, snapshots, applied, before, scanned, hashes, chain, n);
      SurvivorEndsItsBlock(cfg, snapshots, applied, before, scanned, hashes, chain, n);
    }
  }

  lemma ScannedAfterRollback(cfg: Config, core: Core, at: nat -> Option<Hash>)
    ensures var n := Surviving(core.snapshots, at);
            HandleReorg(cfg, core, at).lastScannedBlock
            == if n > 0 then core.snapshots[n - 1].blockNumber else StartBlock(cfg)
  {
  }

  /** A tick that finds a reorg, rolls back and reads the whole range of the new chain ends exact on it. */
  lemma TickHeals(cfg: Config, core: Core, applied: seq<Event>, before: Blocks, r: TickReads)
    requires Binding(cfg) && Recorded(cfg, core, applied) && CaughtUp(cfg, core, applied, before)
    requires cfg.crypto.merkle(cfg.parentState) == cfg.parentRoot && Through(cfg, r.chain, StartBlock(cfg) + 1) == []
    requires Proceeds(cfg, core, r) && NeedsReorg(core, r.hashes.newest) && r.batch.Some?
    requires HonestHashes(cfg, core.snapshots, r.hashes, r.chain)
    requires var safeHead := r.head.value - cfg.confirmationDepth;
             && safeHead > HandleReorg(cfg, core, r.hashes.at).lastScannedBlock
             && Complete(cfg, r.chain, HandleReorg(cfg, core, r.hashes.at).lastScannedBlock, safeHead, r.batch.value)
             && Acceptable(cfg, Through(cfg, r.chain, safeHead + 1))
    ensures var next := Tick(cfg, core, r);
            && next.lastScannedBlock == r.head.value - cfg.confirmationDepth
            && CaughtUp(cfg, next, TickHistory(cfg, core, applied, r), r.chain)
  {
    var n := Surviving(core.snapshots, r.hashes.at);
    ReorgRecords(cfg, core, applied, r.hashes.at);
    RollbackStaysExact(cfg, core, applied, before, r.hashes, r.chain);
    ScanCatchesUp(cfg, HandleReorg(cfg, core, r.hashes.at), KeptHistory(core.snapshots, applied, n), r);
    TickAfterCheck(cfg, core, applied, r);
  }

  lemma ScanCatchesUp(cfg: Config, core: Core, applied: seq<Event>, r: TickReads)
    requires Replays(cfg, core, applied) && CaughtUp(cfg, core, applied, r.chain) && r.head.Some? && r.batch.Some?
    requires var safeHead := r.head.value - cfg.confirmationDepth;
             && safeHead > core.lastScannedBlock
             && Complete(cfg, r.chain, core.lastScannedBlock, safeHead, r.batch.value)
             && Acceptable(cfg, Through(cfg, r.chain, safeHead + 1))
    ensures var next := Settled(cfg, core, r.head.value, r);
            && next.lastScannedBlock == r.head.value - cfg.confirmationDepth
            && CaughtUp(cfg, next, applied + ScanAccepted(cfg, core, r.head.value, r), r.chain)
  {
    var safeHead := r.head.value - cfg.confirmationDepth;
    BatchAccepted(cfg, core, applied, r.batch.value, Through(cfg, r.chain, safeHead + 1));
    SettledFrame(cfg, core, r.head.value, r);
  }

  lemma TickAfterCheck(cfg: Config, core: Core, applied: seq<Event>, r: TickReads)
    requires Proceeds(cfg, core, r)
    ensures var checked := AfterReorgCheck(cfg, core, r.hashes);
            && Tick(cfg, core, r) == Settled(cfg, checked, r.head.value, r)
            && TickHistory(cfg, core, applied, r)
               == ReorgHistory(core, applied, r.hashes) + ScanAccepted(cfg, checked, r.head.value, r)
  {
  }

  /** The block a boot scans to. */
  function BootBlock(cfg: Config, head: nat): int {
    if head - cfg.confirmationDepth < cfg.replayFromBlock then cfg.replayFromBlock else head - cfg.confirmationDepth
  }

  /** A boot that reads the whole range of a chain it can follow, with a registry that is not behind, succeeds,
      is exact through the block it scanned to, and may sign exactly if the registry agrees. */
  lemma BootCatchesUp(cfg: Config, head: nat, chain: Blocks, batch: seq<Event>, registry: (Hash, nat))
    requires cfg.crypto.merkle(cfg.parentState) == cfg.parentRoot
    requires forall ev :: ev in batch ==> ev.log.epoch <= cfg.epoch
    requires Through(cfg, chain, BootBlock(cfg, head) + 1) == EpochPart(batch, cfg.epoch)
    requires var events := Through(cfg, chain, BootBlock(cfg, head) + 1);
             && Acceptable(cfg, events) && |events| <= registry.1
             && (|events| == registry.1 ==>
                   registry.0 == if events == [] then cfg.parentRoot else events[|events| - 1].log.newRoot)
    ensures var booted := Boot(cfg, true, head, batch, registry);
            && booted.Some? && CaughtUp(cfg, booted.value, BootHistory(cfg, batch), chain)
            && booted.value.lastScannedBlock == BootBlock(cfg, head)
            && (booted.value.signingEnabled <==> |Through(cfg, chain, BootBlock(cfg, head) + 1)| == registry.1)
  {
    var events := Through(cfg, chain, BootBlock(cfg, head) + 1);
    BootTakes(cfg, batch, events);
  }

  lemma BootTakes(cfg: Config, batch: seq<Event>, events: seq<Event>)
    requires cfg.crypto.merkle(cfg.parentState) == cfg.parentRoot && Acceptable(cfg, events)
    requires (forall ev :: ev in batch ==> ev.log.epoch <= cfg.epoch) && EpochPart(batch, cfg.epoch) == events
    ensures var (core, ok) := ApplyBatch(cfg, Launched(cfg), batch);
            && ok && BootHistory(cfg, batch) == events && core.lastTransitionIndex == |events| - 1
            && core.liveRoot == if events == [] then cfg.parentRoot else events[|events| - 1].log.newRoot
  {
    var start := Launched(cfg);
    assert [] + EpochPart(batch, cfg.epoch) == events;
    BatchAccepted(cfg, start, [], batch, events);
    BatchReplays(cfg, start, [], batch);
    assert [] + Accepted(cfg, start, batch) == events;
    LiveRootAfter(cfg, ApplyBatch(cfg, start, batch).0, events);
  }

  lemma {:induction false} BatchReplays(cfg: Config, core: Core, applied: seq<Event>, batch: seq<Event>)
    requires Replays(cfg, core, applied)
    ensures Replays(cfg, ApplyBatch(cfg, core, batch).0, applied + Accepted(cfg, core, batch))
    decreases |batch|
  {
    if batch == [] || ApplyChainEvent(cfg, core, batch[0]).None? {
      assert applied + [] == applied;
    } else {
      AcceptedStep(cfg, core, applied, batch);
      var next := ApplyChainEvent(cfg, core, batch[0]).value;
      if batch[0].log.epoch == cfg.epoch {
        CommitReplays(cfg, core, applied, batch[0]);
        BatchReplays(cfg, next, applied + [batch[0]], batch[1..]);
      } else {
        BatchReplays(cfg, next, applied, batch[1..]);
      }
    }
  }

  lemma LiveRootAfter(cfg: Config, core: Core, applied: seq<Event>)
    requires Replays(cfg, core, applied) && cfg.crypto.merkle(cfg.parentState) == cfg.parentRoot
    ensures core.lastTransitionIndex == |applied| - 1
    ensures core.liveRoot == if applied == [] then cfg.parentRoot else applied[|applied| - 1].log.newRoot
  {
    if applied != [] {
      var n := |applied| - 1;
      assert applied[..n + 1] == applied && Linked(cfg, applied, n);
    }
  }

  /** A boot that succeeds has replayed every log it read, and the registry is ahead of the replay or has its
      root and count. */
  lemma BootMeans(cfg: Config, wiringOk: bool, head: nat, batch: seq<Event>, registry: (Hash, nat))
    ensures var booted := Boot(cfg, wiringOk, head, batch, registry);
            booted.Some? ==>
              && wiringOk && cfg.crypto.merkle(cfg.parentState) == cfg.parentRoot
              && ApplyBatch(cfg, Launched(cfg), batch).1
              && booted.value.lastTransitionIndex + 1 <= registry.1
              && (booted.value.lastTransitionIndex + 1 == registry.1 ==>
                    registry.0 == booted.value.liveRoot && booted.value.signingEnabled)
              && (booted.value.lastTransitionIndex + 1 < registry.1 ==> !booted.value.signingEnabled)
  {
  }

  /** An advance of the epoch is accepted exactly when it is numbered next, starts from the live root, has the
      configured pins, the hash and the word count of its bytes, and these lead to the root it names. */
  lemma AcceptedIff(cfg: Config, core: Core, ev: Event)
    requires ev.log.epoch == cfg.epoch
    ensures ApplyChainEvent(cfg, core, ev).Some? <==>
            && ev.log.transitionIndex == core.lastTransitionIndex + 1 && ev.log.parent == core.liveRoot
            && Pinned(cfg, ev.log) && ev.log.patchHash == cfg.crypto.patchHash(ev.log.patchBytes)
            && var next := cfg.crypto.applyPatch(core.liveState, ev.log.patchBytes);
               next.Some? && ev.log.newRoot == cfg.crypto.merkle(next.value)
  {
  }

  lemma {:induction false} AcceptedPinned(cfg: Config, core: Core, batch: seq<Event>)
    ensures forall ev :: ev in Accepted(cfg, core, batch) ==> Pinned(cfg, ev.log)
    decreases |batch|
  {
    if batch != [] && ApplyChainEvent(cfg, core, batch[0]).Some? {
      AcceptedPinned(cfg, ApplyChainEvent(cfg, core, batch[0]).value, batch[1..]);
      if batch[0].log.epoch == cfg.epoch {
        AcceptedIff(cfg, core, batch[0]);
      }
    }
  }

  ghost predicate AllPinned(cfg: Config, applied: seq<Event>) {
    forall i :: 0 <= i < |applied| ==> Pinned(cfg, applied[i].log)
  }

  lemma TickPinned(cfg: Config, core: Core, applied: seq<Event>, r: TickReads)
    requires AllPinned(cfg, applied)
    ensures AllPinned(cfg, TickHistory(cfg, core, applied, r))
  {
    if r.batch.Some? {
      AcceptedPinned(cfg, AfterReorgCheck(cfg, core, r.hashes), r.batch.value);
    }
    var more := TickAccepted(cfg, core, r);
    assert forall i :: 0 <= i < |more| ==> more[i] in more;
  }

  // ── the signing gate ─────────────────────────────────────────────────────────

  /** The tick reads everything it needs and no log throws. */
  predicate Completes(cfg: Config, core: Core, r: TickReads) {
    && Proceeds(cfg, core, r) && r.registry.Some?
    && Scanned(cfg, AfterReorgCheck(cfg, core, r.hashes), r.head.value, r).1
  }

  /** Signing is on after a tick exactly if the tick completed and the registry has the coordinator's own root
      and count, or if it was on before and the fault is a passing one, without an epoch change or a rollback. */
  lemma SigningGate(cfg: Config, core: Core, r: TickReads)
    ensures var next := Tick(cfg, core, r);
            next.signingEnabled <==>
            if Completes(cfg, core, r) then r.registry.value == (next.liveRoot, next.lastTransitionIndex + 1)
            else
              && core.signingEnabled && r.transientInGrace && (r.epochNow.Some? ==> r.epochNow.value == cfg.epoch)
              && !(Proceeds(cfg, core, r) && NeedsReorg(core, r.hashes.newest))
  {
    if Proceeds(cfg, core, r) {
      TickAfterCheck(cfg, core, [], r);
      SettledGate(cfg, AfterReorgCheck(cfg, core, r.hashes), r.head.value, r);
    }
  }

  lemma {:induction false} BatchKeepsGate(cfg: Config, core: Core, batch: seq<Event>)
    ensures ApplyBatch(cfg, core, batch).0.signingEnabled == core.signingEnabled
    decreases |batch|
  {
    if batch != [] && ApplyChainEvent(cfg, core, batch[0]).Some? {
      BatchKeepsGate(cfg, ApplyChainEvent(cfg, core, batch[0]).value, batch[1..]);
    }
  }

  lemma SettledGate(cfg: Config, core: Core, head: nat, r: TickReads)
    ensures var next := Settled(cfg, core, head, r);
            next.signingEnabled <==>
            if Scanned(cfg, core, head, r).1 && r.registry.Some?
            then r.registry.value == (next.liveRoot, next.lastTransitionIndex + 1)
            else core.signingEnabled && r.transientInGrace
  {
    if r.batch.Some? {
      BatchKeepsGate(cfg, core, r.batch.value);
    }
  }

  // ── wedged ───────────────────────────────────────────────────────────────────

  /** A batch whose first advance of the epoch was applied before throws on it and changes nothing. */
  lemma {:induction false} OldLogThrows(cfg: Config, core: Core, batch: seq<Event>)
    requires forall ev :: ev in batch ==> ev.log.epoch <= cfg.epoch
    requires EpochPart(batch, cfg.epoch) != []
    requires EpochPart(batch, cfg.epoch)[0].log.transitionIndex <= core.lastTransitionIndex
    ensures ApplyBatch(cfg, core, batch) == (core, false)
    decreases |batch|
  {
    assert batch[0] in batch && forall e :: e in batch[1..] ==> e in batch;
    if batch[0].log.epoch < cfg.epoch {
      OldLogThrows(cfg, core, batch[1..]);
    }
  }

  lemma {:induction false} NoneOfTheEpoch(cfg: Config, core: Core, batch: seq<Event>)
    requires (forall ev :: ev in batch ==> ev.log.epoch <= cfg.epoch) && EpochPart(batch, cfg.epoch) == []
    ensures ApplyBatch(cfg, core, batch) == (core, true)
    decreases |batch|
  {
    if batch != [] {
      assert batch[0] in batch && forall e :: e in batch[1..] ==> e in batch;
      NoneOfTheEpoch(cfg, core, batch[1..]);
    }
  }

  lemma ThroughIsPrefix(cfg: Config, chain: Blocks, n: int)
    ensures Through(cfg, chain, n) <= EpochEvents(cfg.blockHash, chain, cfg.epoch)
    ensures forall i :: 0 <= i < |Through(cfg, chain, n)| ==> Through(cfg, chain, n)[i].blockNumber < n
  {
    if 0 < n <= |chain| {
      EpochEventsPrefix(cfg.blockHash, chain, n, cfg.epoch);
    }
    forall i | 0 <= i < |Through(cfg, chain, n)|
      ensures Through(cfg, chain, n)[i].blockNumber < n
    {
      EpochEventsOnChain(cfg.blockHash, if n <= |chain| then chain[..n] else chain, cfg.epoch, i);
    }
  }

  lemma ThroughGrows(cfg: Config, chain: Blocks, a: int, b: int)
    requires a <= b
    ensures |Through(cfg, chain, a)| <= |Through(cfg, chain, b)|
  {
    if 0 < a <= |chain| {
      if b <= |chain| {
        assert chain[..b][..a] == chain[..a];
        EpochEventsPrefix(cfg.blockHash, chain[..b], a, cfg.epoch);
      } else {
        EpochEventsPrefix(cfg.blockHash, chain, a, cfg.epoch);
      }
    }
  }

  /** An event of the chain is in the first `n` blocks' advances exactly when its block is. */
  lemma InThrough(cfg: Config, chain: Blocks, j: nat, n: int)
    requires RegistryNumbered(cfg.blockHash, chain, cfg.epoch) && j < |EpochEvents(cfg.blockHash, chain, cfg.epoch)|
    requires EpochEvents(cfg.blockHash, chain, cfg.epoch)[j].log.epoch == cfg.epoch
    ensures j < |Through(cfg, chain, n)| <==> EpochEvents(cfg.blockHash, chain, cfg.epoch)[j].blockNumber < n
  {
    var ev := EpochEvents(cfg.blockHash, chain, cfg.epoch)[j];
    ThroughIsPrefix(cfg, chain, n);
    EpochEventsOnChain(cfg.blockHash, chain, cfg.epoch, j);
    EventAtItsIndex(cfg.blockHash, chain, cfg.epoch, ev);
    if ev.blockNumber < n {
      ThroughGrows(cfg, chain, ev.blockNumber + 1, n);
    }
  }

  /** An applied advance lies above the scanned blocks: what a throw in the middle of a batch leaves. */
  predicate AppliedAhead(core: Core, applied: seq<Event>, j: nat) {
    j < |applied| && applied[j].blockNumber > core.lastScannedBlock
  }

  /** What the scan of a complete range does then: nothing, and it throws as soon as the range reaches an
      advance at all. */
  lemma ScanWedged(cfg: Config, core: Core, applied: seq<Event>, j: nat, chain: Blocks, safeHead: int,
                   batch: seq<Event>)
    requires Replays(cfg, core, applied) && AppliedAhead(core, applied, j) && safeHead > core.lastScannedBlock
    requires RegistryNumbered(cfg.blockHash, chain, cfg.epoch)
             && applied <= EpochEvents(cfg.blockHash, chain, cfg.epoch)
    requires Complete(cfg, chain, core.lastScannedBlock, safeHead, batch)
    ensures ApplyBatch(cfg, core, batch).0 == core && Accepted(cfg, core, batch) == []
    ensures ApplyBatch(cfg, core, batch).1 ==> applied[j].blockNumber > safeHead
  {
    var m, part := |Through(cfg, chain, core.lastScannedBlock + 1)|, EpochPart(batch, cfg.epoch);
    assert Linked(cfg, applied, j);
    InThrough(cfg, chain, j, core.lastScannedBlock + 1);
    InThrough(cfg, chain, j, safeHead + 1);
    if part == [] {
      NoneOfTheEpoch(cfg, core, batch);
    } else {
      ThroughIsPrefix(cfg, chain, safeHead + 1);
      assert Through(cfg, chain, safeHead + 1)[m] == part[0];
      OldLogThrows(cfg, core, batch);
    }
    UnchangedAcceptsNothing(cfg, core, batch);
  }

  lemma {:induction false} UnchangedAcceptsNothing(cfg: Config, core: Core, batch: seq<Event>)
    requires ApplyBatch(cfg, core, batch).0.lastTransitionIndex == core.lastTransitionIndex
    ensures Accepted(cfg, core, batch) == []
    decreases |batch|
  {
    AcceptedCount(cfg, core, batch);
  }

  lemma {:induction false} AcceptedCount(cfg: Config, core: Core, batch: seq<Event>)
    ensures ApplyBatch(cfg, core, batch).0.lastTransitionIndex ==
            core.lastTransitionIndex + |Accepted(cfg, core, batch)|
    decreases |batch|
  {
    if batch != [] && ApplyChainEvent(cfg, core, batch[0]).Some? {
      AcceptedCount(cfg, ApplyChainEvent(cfg, core, batch[0]).value, batch[1..]);
    }
  }

  lemma TickWithoutReorg(cfg: Config, core: Core, applied: seq<Event>, r: TickReads)
    requires Proceeds(cfg, core, r) && !NeedsReorg(core, r.hashes.newest)
    ensures Tick(cfg, core, r) == Settled(cfg, core, r.head.value, r)
    ensures TickHistory(cfg, core, applied, r) == applied + ScanAccepted(cfg, core, r.head.value, r)
  {
  }

  /** After the scan a tick moves neither the live fields nor the scan position. */
  lemma SettledFrame(cfg: Config, core: Core, head: nat, r: TickReads)
    ensures var (settled, scanned) := (Settled(cfg, core, head, r), Scanned(cfg, core, head, r).0);
            && settled.snapshots == scanned.snapshots && settled.liveRoot == scanned.liveRoot
            && settled.lastTransitionIndex == scanned.lastTransitionIndex
            && settled.lastScannedBlock == scanned.lastScannedBlock
  {
  }

  /** Complete reads of the range the scan asks for, if it asks. */
  ghost predicate CompleteReads(cfg: Config, core: Core, r: TickReads)
    requires r.head.Some?
  {
    var safeHead := r.head.value - cfg.confirmationDepth;
    safeHead > core.lastScannedBlock ==>
      r.batch.Some? && Complete(cfg, r.chain, core.lastScannedBlock, safeHead, r.batch.value)
  }

  lemma ScannedWedged(cfg: Config, core: Core, applied: seq<Event>, j: nat, r: TickReads)
    requires Replays(cfg, core, applied) && AppliedAhead(core, applied, j) && r.head.Some?
             && CompleteReads(cfg, core, r)
    requires RegistryNumbered(cfg.blockHash, r.chain, cfg.epoch)
    requires applied <= EpochEvents(cfg.blockHash, r.chain, cfg.epoch)
    ensures var (scanned, ok) := Scanned(cfg, core, r.head.value, r);
            && ScanAccepted(cfg, core, r.head.value, r) == []
            && scanned == core.(lastScannedBlock := scanned.lastScannedBlock) && AppliedAhead(scanned, applied, j)
            && (applied[j].blockNumber <= r.head.value - cfg.confirmationDepth ==> !ok && scanned == core)
  {
    var safeHead := r.head.value - cfg.confirmationDepth;
    if safeHead > core.lastScannedBlock {
      ScanWedged(cfg, core, applied, j, r.chain, safeHead, r.batch.value);
    }
  }

  /** Wedged: once an applied advance lies above the scanned blocks, every later tick that reads complete
      ranges of chains where the newest snapshot is canonical leaves the history as it is, and leaves that
      advance above the scanned blocks, so the next such tick does the same; a tick whose range reaches
      that advance is a fault. Only a rollback or a restart ends it. */
  lemma WedgeStays(cfg: Config, core: Core, applied: seq<Event>, j: nat, r: TickReads)
    requires Binding(cfg) && Watching(cfg, core, applied) && AppliedAhead(core, applied, j)
    requires RegistryNumbered(cfg.blockHash, r.chain, cfg.epoch) && HonestHashes(cfg, core.snapshots, r.hashes, r.chain)
    requires |core.snapshots| > 0 && SnapshotCanonical(cfg, r.chain, core.snapshots[|core.snapshots| - 1])
    requires Proceeds(cfg, core, r) && CompleteReads(cfg, core, r)
    ensures var next := Tick(cfg, core, r);
            && TickHistory(cfg, core, applied, r) == applied && next.snapshots == core.snapshots
            && next.liveRoot == core.liveRoot && next.lastTransitionIndex == core.lastTransitionIndex
            && AppliedAhead(next, applied, j)
            && (applied[j].blockNumber <= r.head.value - cfg.confirmationDepth ==> next == Faulted(core, r))
  {
    NewestDecides(cfg, core, applied, r.chain);
    assert !NeedsReorg(core, r.hashes.newest);
    TickWithoutReorg(cfg, core, applied, r);
    ScannedWedged(cfg, core, applied, j, r);
    SettledFrame(cfg, core, r.head.value, r);
    assert applied + [] == applied;
  }

  /** A tick with honest hashes and complete ranges of a numbered chain that still has the newest snapshot;
      a tick that fails in its first reads is one too. */
  ghost predicate WatchedTick(cfg: Config, core: Core, r: TickReads) {
    Proceeds(cfg, core, r) ==>
      && RegistryNumbered(cfg.blockHash, r.chain, cfg.epoch) && HonestHashes(cfg, core.snapshots, r.hashes, r.chain)
      && |core.snapshots| > 0 && SnapshotCanonical(cfg, r.chain, core.snapshots[|core.snapshots| - 1])
      && CompleteReads(cfg, core, r)
  }

  function Ticks(cfg: Config, core: Core, answers: seq<TickReads>): Core {
    if answers == [] then core
    else Tick(cfg, Ticks(cfg, core, answers[..|answers| - 1]), answers[|answers| - 1])
  }

  ghost predicate WatchedTicks(cfg: Config, core: Core, answers: seq<TickReads>) {
    answers == [] || (WatchedTicks(cfg, core, answers[..|answers| - 1])
                    && WatchedTick(cfg, Ticks(cfg, core, answers[..|answers| - 1]), answers[|answers| - 1]))
  }

  /** The history and the live fields stand still, and the advance is still ahead. */
  ghost predicate Stuck(cfg: Config, core: Core, next: Core, applied: seq<Event>, j: nat) {
    && Watching(cfg, next, applied) && AppliedAhead(next, applied, j) && next.snapshots == core.snapshots
    && next.liveRoot == core.liveRoot && next.lastTransitionIndex == core.lastTransitionIndex
  }

  lemma TickStuck(cfg: Config, core: Core, applied: seq<Event>, j: nat, r: TickReads)
    requires Binding(cfg) && cfg.crypto.merkle(cfg.parentState) == cfg.parentRoot
    requires Watching(cfg, core, applied) && AppliedAhead(core, applied, j) && WatchedTick(cfg, core, r)
    ensures Stuck(cfg, core, Tick(cfg, core, r), applied, j)
  {
    TickRecords(cfg, core, applied, r);
    if Proceeds(cfg, core, r) {
      WedgeStays(cfg, core, applied, j, r);
    }
  }

  /** Over every run of such ticks, of any length, on any chains: nothing is ever accepted again. */
  lemma {:induction false} WedgedForGood(cfg: Config, core: Core, applied: seq<Event>, j: nat, answers: seq<TickReads>)
    requires Binding(cfg) && cfg.crypto.merkle(cfg.parentState) == cfg.parentRoot
    requires Watching(cfg, core, applied) && AppliedAhead(core, applied, j) && WatchedTicks(cfg, core, answers)
    ensures Stuck(cfg, core, Ticks(cfg, core, answers), applied, j)
    decreases |answers|
  {
    if answers != [] {
      var before := answers[..|answers| - 1];
      WedgedForGood(cfg, core, applied, j, before);
      TickStuck(cfg, Ticks(cfg, core, before), applied, j, answers[|answers| - 1]);
    }
  }

  /** A throw in the middle of a batch does it: an advance of the batch was accepted, and the scan position
      stays below the whole range. */
  lemma ThrowWedges(cfg: Config, core: Core, applied: seq<Event>, r: TickReads)
    requires Proceeds(cfg, core, r) && !NeedsReorg(core, r.hashes.newest) && r.batch.Some?
    requires forall ev :: ev in r.batch.value ==> ev.blockNumber > core.lastScannedBlock
    requires r.head.value - cfg.confirmationDepth > core.lastScannedBlock
    requires !ApplyBatch(cfg, core, r.batch.value).1 && Accepted(cfg, core, r.batch.value) != []
    ensures AppliedAhead(Tick(cfg, core, r), TickHistory(cfg, core, applied, r), |applied|)
  {
    var a := Accepted(cfg, core, r.batch.value);
    TickWithoutReorg(cfg, core, applied, r);
    SettledFrame(cfg, core, r.head.value, r);
    BatchKeepsPosition(cfg, core, r.batch.value);
    assert (applied + a)[|applied|] == a[0] && a[0] in a;
  }

  lemma {:induction false} BatchKeepsPosition(cfg: Config, core: Core, batch: seq<Event>)
    ensures ApplyBatch(cfg, core, batch).0.lastScannedBlock == core.lastScannedBlock
    decreases |batch|
  {
    if batch != [] && ApplyChainEvent(cfg, core, batch[0]).Some? {
      BatchKeepsPosition(cfg, ApplyChainEvent(cfg, core, batch[0]).value, batch[1..]);
    }
  }
}
