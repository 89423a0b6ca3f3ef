/** Two runs that show what a rollback can do to receipts signed long before it. */
module Reopening {
  import opened Wrappers
  import opened Chain
  import opened Watcher
  import opened Signing
  import opened Receipts
  import opened Submits
  import opened Deduplication
  import Progress

  // ── ticks that take a whole batch ────────────────────────────────────────────

  /** Reads of a tick that finds the snapshots in place, a batch of logs, and the registry in agreement. */
  function CalmReads(cfg: Config, head: nat, batch: seq<Event>, registry: (Hash, nat), now: int): TickReads {
    TickReads(Some(cfg.epoch), Some(head), [], HashReads(true, None, i => None), Some(batch), Some(registry), now,
              false)
  }

  lemma {:induction false} AllOfTheEpoch(batch: seq<Event>, epoch: nat)
    requires forall i :: 0 <= i < |batch| ==> batch[i].log.epoch == epoch
    ensures Progress.EpochPart(batch, epoch) == batch
  {
    if batch != [] {
      AllOfTheEpoch(batch[1..], epoch);
    }
  }

  lemma {:induction false} BatchKeepsEntry(cfg: Config, core: Core, batch: seq<Event>, k: Hash)
    requires k in core.pending && core.pending[k].state != Expired
    ensures var after := ApplyBatch(cfg, core, batch).0.pending;
            && k in after && after[k] == core.pending[k].(state := after[k].state) && after[k].state != Expired
            && (core.pending[k].state != Pending ==> after[k].state != Pending)
    decreases |batch|
  {
    if batch != [] && ApplyChainEvent(cfg, core, batch[0]).Some? {
      BatchKeepsEntry(cfg, ApplyChainEvent(cfg, core, batch[0]).value, batch[1..], k);
    }
  }

  /** A batch whose first advance is on the entry's parent leaves it not pending. */
  lemma BatchMarksEntry(cfg: Config, core: Core, batch: seq<Event>, k: Hash)
    requires k in core.pending && core.pending[k].state != Expired
    requires batch != [] && ApplyChainEvent(cfg, core, batch[0]).Some? && batch[0].log.epoch == cfg.epoch
    requires batch[0].log.parent == core.pending[k].parentRoot
    ensures var after := ApplyBatch(cfg, core, batch).0.pending; k in after && after[k].state != Pending
  {
    BatchKeepsEntry(cfg, ApplyChainEvent(cfg, core, batch[0]).value, batch[1..], k);
  }

  lemma AcceptableIsOfTheEpoch(cfg: Config, batch: seq<Event>)
    requires Progress.Acceptable(cfg, batch)
    ensures forall i :: 0 <= i < |batch| ==> batch[i].log.epoch == cfg.epoch
    ensures forall ev :: ev in batch ==> ev.log.epoch == cfg.epoch
    ensures batch != [] ==> batch[0].log.parent == cfg.crypto.merkle(cfg.parentState)
  {
    forall i | 0 <= i < |batch|
      ensures batch[i].log.epoch == cfg.epoch
    {
      assert Linked(cfg, batch, i);
    }
    if batch != [] {
      assert Linked(cfg, batch, 0) && batch[..0] == [];
    }
  }

  lemma WholeBatchAccepted(cfg: Config, core: Core, batch: seq<Event>)
    requires Replays(cfg, core, []) && Progress.Acceptable(cfg, batch)
    ensures ApplyBatch(cfg, core, batch).1 && Accepted(cfg, core, batch) == batch
    ensures batch != [] ==> ApplyChainEvent(cfg, core, batch[0]).Some?
  {
    AcceptableIsOfTheEpoch(cfg, batch);
    AllOfTheEpoch(batch, cfg.epoch);
    assert [] + batch == batch;
    Progress.BatchAccepted(cfg, core, [], batch, batch);
  }

  /** Everything is accepted; history and window are as one would expect. */
  lemma BatchTaken(cfg: Config, core: Core, batch: seq<Event>)
    requires Replays(cfg, core, []) && Progress.Acceptable(cfg, batch) && batch != []
    ensures var (next, ok) := ApplyBatch(cfg, core, batch);
            && ok && Replays(cfg, next, batch) && ApplyChainEvent(cfg, core, batch[0]).Some?
            && |next.snapshots| == (if |batch| <= MAX_SNAPSHOTS then |batch| else MAX_SNAPSHOTS)
  {
    WholeBatchAccepted(cfg, core, batch);
    BatchSnapshots(cfg, core, batch);
    Progress.BatchReplays(cfg, core, [], batch);
    assert [] + batch == batch;
  }

  lemma LiveAfter(cfg: Config, core: Core, batch: seq<Event>)
    requires Replays(cfg, core, batch) && batch != []
    ensures core.lastTransitionIndex == |batch| - 1 && core.liveRoot == batch[|batch| - 1].log.newRoot
  {
    var n := |batch| - 1;
    assert batch[..n + 1] == batch && Linked(cfg, batch, n);
  }

  /** A calm tick that takes a first batch, with one entry on the launch root in the books. */
  lemma CalmTick(cfg: Config, core: Core, batch: seq<Event>, head: nat, now: int, k: Hash) returns (next: Core)
    requires Replays(cfg, core, []) && StatesKept(cfg, core) && Progress.Acceptable(cfg, batch) && batch != []
    requires core.lastScannedBlock < head - cfg.confirmationDepth
    requires k in core.pending && core.pending[k].state == Pending && core.pending[k].parentRoot == cfg.parentRoot
    requires cfg.crypto.merkle(cfg.parentState) == cfg.parentRoot
    ensures next == Tick(cfg, core, CalmReads(cfg, head, batch, (batch[|batch| - 1].log.newRoot, |batch|), now))
    ensures Replays(cfg, next, batch) && StatesKept(cfg, next)
    ensures |next.snapshots| == if |batch| <= MAX_SNAPSHOTS then |batch| else MAX_SNAPSHOTS
    ensures next.signingEnabled && next.liveRoot == batch[|batch| - 1].log.newRoot && next.frozen == core.frozen
    ensures k in next.pending && next.pending[k] == core.pending[k].(state := next.pending[k].state)
    ensures next.pending[k].state != Pending && next.pending[k].state != Expired
    ensures forall d :: d in next.submitDedup ==> d in core.submitDedup && next.submitDedup[d] == core.submitDedup[d]
    ensures next.reservations == core.reservations || next.reservations == Watcher.Unexpired(core.reservations, now)
  {
    var r := CalmReads(cfg, head, batch, (batch[|batch| - 1].log.newRoot, |batch|), now);
    next := Tick(cfg, core, r);
    AcceptableIsOfTheEpoch(cfg, batch);
    BatchTaken(cfg, core, batch);
    LiveAfter(cfg, ApplyBatch(cfg, core, batch).0, batch);
    BatchMarksEntry(cfg, core, batch, k);
    BatchKeepsEntry(cfg, core, batch, k);
    BatchStates(cfg, core, batch);
    BatchKeepsLedger(cfg, core, batch);
    CalmSettles(cfg, core, r);
  }

  lemma CalmSettles(cfg: Config, core: Core, r: TickReads)
    requires Proceeds(cfg, core, r) && !NeedsReorg(core, r.hashes.newest) && r.batch.Some? && r.registry.Some?
    requires core.lastScannedBlock < r.head.value - cfg.confirmationDepth && ApplyBatch(cfg, core, r.batch.value).1
    ensures var taken :=
            ApplyBatch(cfg, core, r.batch.value).0.(lastScannedBlock := r.head.value - cfg.confirmationDepth);
            Tick(cfg, core, r) == GcPending(ParityChecked(taken, r.registry.value), r.now)
  {
    Progress.TickAfterCheck(cfg, core, [], r);
  }

  lemma {:induction false} BatchStates(cfg: Config, core: Core, batch: seq<Event>)
    requires StatesKept(cfg, core)
    ensures StatesKept(cfg, ApplyBatch(cfg, core, batch).0)
    decreases |batch|
  {
    if batch != [] && ApplyChainEvent(cfg, core, batch[0]).Some? {
      BatchStates(cfg, ApplyChainEvent(cfg, core, batch[0]).value, batch[1..]);
    }
  }

  lemma BatchKeepsLedger(cfg: Config, core: Core, batch: seq<Event>)
    ensures ApplyBatch(cfg, core, batch).0.submitDedup == core.submitDedup
  {
    BatchOnlyMarks(cfg, core, batch);
  }

  // ── a confirmed receipt is pending again ─────────────────────────────────────

  /** Reads of a tick that finds the newest block replaced and the one below it in place; nothing new is
      confirmed, and the registry agrees. */
  function OneBlockReorg(cfg: Config, snapshots: seq<Snapshot>, registry: (Hash, nat), now: int): TickReads
    requires |snapshots| > 1
  {
    var n := |snapshots| - 1;
    TickReads(Some(cfg.epoch), Some(0), [],
              HashReads(true, Some(snapshots[n].blockHash + 1),
                        (i: nat) => if i < n then Some(snapshots[i].blockHash) else None),
              Some([]), Some(registry), now, false)
  }

  lemma ReorgSettles(cfg: Config, core: Core, r: TickReads)
    requires Proceeds(cfg, core, r) && NeedsReorg(core, r.hashes.newest) && r.registry.Some?
    requires r.head.value - cfg.confirmationDepth <= AfterReorgCheck(cfg, core, r.hashes).lastScannedBlock
    ensures Tick(cfg, core, r)
            == GcPending(ParityChecked(HandleReorg(cfg, core, r.hashes.at), r.registry.value), r.now)
  {
    Progress.TickAfterCheck(cfg, core, [], r);
  }

  lemma AllButTheNewest(snapshots: seq<Snapshot>, at: nat -> Option<Hash>)
    requires |snapshots| > 1 && at(|snapshots| - 1) == None
    requires at(|snapshots| - 2) == Some(snapshots[|snapshots| - 2].blockHash)
    ensures Surviving(snapshots, at) == |snapshots| - 1
  {
  }

  /** After a one-block reorg, an entry on the launch root is pending again, once the first advance has left
      the window and no advance in it starts from the launch root. */
  lemma ReopenedOnLaunchRoot(cfg: Config, core: Core, applied: seq<Event>, now: int, k: Hash) returns (next: Core)
    requires Replays(cfg, core, applied) && StatesKept(cfg, core) && |core.snapshots| > 1
    requires cfg.crypto.merkle(cfg.parentState) == cfg.parentRoot
    requires !Spent(core.snapshots, cfg.parentRoot)
    requires k in core.pending && core.pending[k].state != Expired && core.pending[k].parentRoot == cfg.parentRoot
    requires core.pending[k].expiresAt > now
    ensures var n := |core.snapshots| - 1;
            next == Tick(cfg, core, OneBlockReorg(cfg, core.snapshots, (core.snapshots[n - 1].root, n), now))
    ensures k in next.pending && next.pending[k].state == Pending && next.pending[k].parentRoot == cfg.parentRoot
    ensures next.liveRoot != cfg.parentRoot
  {
    var n := |core.snapshots| - 1;
    var r := OneBlockReorg(cfg, core.snapshots, (core.snapshots[n - 1].root, n), now);
    next := Tick(cfg, core, r);
    AllButTheNewest(core.snapshots, r.hashes.at);
    UnspentBelow(core.snapshots, n, cfg.parentRoot);
    RollbackMarks(cfg, core, applied, n, k);
    RollbackKeepsStates(cfg, core, n);
    ReplayChains(cfg, core, applied);
    assert core.snapshots[n].parent == core.snapshots[n - 1].root;
    ReorgSettles(cfg, core, r);
  }

  lemma UnspentBelow(snapshots: seq<Snapshot>, n: nat, root: Hash)
    requires n <= |snapshots| && !Spent(snapshots, root)
    ensures !Spent(snapshots[..n], root)
  {
    assert forall j :: 0 <= j < n ==> snapshots[..n][j] == snapshots[j];
  }

  /** No advance of the window starts from the launch root. */
  lemma WindowUnspent(cfg: Config, core: Core, applied: seq<Event>)
    requires Replays(cfg, core, applied)
    requires forall i :: |applied| - |core.snapshots| <= i < |applied| ==> applied[i].log.parent != cfg.parentRoot
    ensures !Spent(core.snapshots, cfg.parentRoot)
  {
    forall j | 0 <= j < |core.snapshots|
      ensures core.snapshots[j].parent != cfg.parentRoot
    {
      assert SnapshotOf(cfg, core.snapshots[j], applied, |applied| - |core.snapshots| + j);
    }
  }

  /** The launch of a coordinator that has signed one state advance on the launch root. */
  lemma LaunchedAndSigned(cfg: Config, s: Submit, delta: int, clock: int, onChain: Miner -> Counters,
                          hash: Option<Hash>)
    returns (w: World, k: Hash)
    requires cfg.crypto.merkle(cfg.parentState) == cfg.parentRoot && cfg.confirmationDepth == 0
             && cfg.replayFromBlock == 0
    requires Preparable(cfg, Launched(cfg).(signingEnabled := true), s)
    requires cfg.crypto.applyPatch(cfg.parentState, cfg.crypto.rescore(s.patchBytes, delta)).Some?
    ensures Boot(cfg, true, 0, [], (cfg.parentRoot, 0)).Some?
    ensures w == Run(cfg, Booted(cfg, true, 0, [], (cfg.parentRoot, 0), clock, onChain),
                     SubmitSteps(cfg, s, StateAdvance(true, delta), hash))
    ensures w.lane.Idle? && !w.ticking && w.clock == clock && w.onChain == onChain && |w.signed| == 1
    ensures Replays(cfg, w.core, []) && StatesKept(cfg, w.core) && !w.core.frozen && w.core.lastScannedBlock == 0
    ensures k in w.core.pending && w.core.pending[k].state == Pending && w.core.pending[k].parentRoot == cfg.parentRoot
    ensures w.core.pending[k].originalPatchHash == Original(cfg, s)
            && w.core.pending[k].expiresAt == clock + cfg.receiptTtlSec
    ensures w.core.submitDedup == map[(cfg.parentRoot, Original(cfg, s)) := clock + cfg.receiptTtlSec]
    ensures w.core.reservations.Keys == {s.miner}
            && w.core.reservations[s.miner].expiresAt == clock + cfg.receiptTtlSec
  {
    var core := BootsEmpty(cfg);
    var w0 := Booted(cfg, true, 0, [], (cfg.parentRoot, 0), clock, onChain);
    assert GcPending(core, clock) == core;
    SubmitSignsIff(cfg, w0, s, StateAdvance(true, delta), hash);
    w := Run(cfg, w0, SubmitSteps(cfg, s, StateAdvance(true, delta), hash));
    k := w.signed[0].patchHash;
    assert Replays(cfg, core, []);
  }

  lemma TickStep(cfg: Config, w: World, r: TickReads) returns (v: World)
    requires w.lane.Idle? && !w.ticking && !w.core.frozen && r.now == w.clock
    ensures v == Run(cfg, w, [TickBegin, TickEnd(r)]) && v == w.(core := Tick(cfg, w.core, r))
  {
    v := RunOfTwo(cfg, w, TickBegin, TickEnd(r));
  }

  /** A run from boot that gets there: a state advance is signed on the launch root, at least 65 advances are
      taken, and then the newest block is replaced. The receipt, whose parent was spent long ago, is
      pending, although the live root is another one. */
  lemma SpentReceiptReopens(cfg: Config, s: Submit, delta: int, clock: int, onChain: Miner -> Counters,
                            hash: Option<Hash>, batch: seq<Event>) returns (steps: seq<Step>, k: Hash)
    requires cfg.crypto.merkle(cfg.parentState) == cfg.parentRoot && cfg.confirmationDepth == 0
             && cfg.replayFromBlock == 0 && cfg.receiptTtlSec > 0
    requires Preparable(cfg, Launched(cfg).(signingEnabled := true), s)
    requires cfg.crypto.applyPatch(cfg.parentState, cfg.crypto.rescore(s.patchBytes, delta)).Some?
    requires Progress.Acceptable(cfg, batch) && |batch| > MAX_SNAPSHOTS
    requires forall i :: |batch| - MAX_SNAPSHOTS <= i < |batch| ==> batch[i].log.parent != cfg.parentRoot
    ensures Boot(cfg, true, 0, [], (cfg.parentRoot, 0)).Some?
    ensures var core := Run(cfg, Booted(cfg, true, 0, [], (cfg.parentRoot, 0), clock, onChain), steps).core;
            && k in core.pending && core.pending[k].state == Pending
            && core.pending[k].parentRoot == cfg.parentRoot && core.liveRoot != cfg.parentRoot
  {
    var w;
    w, k := LaunchedAndSigned(cfg, s, delta, clock, onChain, hash);
    var w0 := Booted(cfg, true, 0, [], (cfg.parentRoot, 0), clock, onChain);
    var s0 := SubmitSteps(cfg, s, StateAdvance(true, delta), hash);
    var r1 := CalmReads(cfg, 1, batch, (batch[|batch| - 1].log.newRoot, |batch|), clock);
    var core1 := CalmTick(cfg, w.core, batch, 1, clock, k);
    var w1 := TickStep(cfg, w, r1);
    WindowUnspent(cfg, core1, batch);
    var n := |core1.snapshots| - 1;
    var r2 := OneBlockReorg(cfg, core1.snapshots, (core1.snapshots[n - 1].root, n), clock);
    var core2 := ReopenedOnLaunchRoot(cfg, core1, batch, clock, k);
    var w2 := TickStep(cfg, w1, r2);
    RunThen(cfg, w0, s0, [TickBegin, TickEnd(r1)]);
    RunThen(cfg, w0, s0 + [TickBegin, TickEnd(r1)], [TickBegin, TickEnd(r2)]);
    steps := s0 + [TickBegin, TickEnd(r1)] + [TickBegin, TickEnd(r2)];
  }

  // ── a taken key is given back ────────────────────────────────────────────────

  /** Reads of a tick that finds all snapshots gone. */
  function FullReorg(cfg: Config, newest: Hash, now: int): TickReads {
    TickReads(Some(cfg.epoch), Some(0), [], HashReads(true, Some(newest + 1), i => None),
              Some([]), Some((cfg.parentRoot, 0)), now, false)
  }

  lemma {:induction false} NoneSurvives(snapshots: seq<Snapshot>, at: nat -> Option<Hash>)
    requires forall i: nat :: at(i) == None
    ensures Surviving(snapshots, at) == 0
  {
  }

  /** Rolled back past all snapshots, an expired entry on the launch root is pending again and swept at
      once, and its key goes with it. */
  lemma KeyGivenBack(cfg: Config, core: Core, applied: seq<Event>, now: int, k: Hash) returns (next: Core)
    requires Replays(cfg, core, applied) && StatesKept(cfg, core) && |core.snapshots| > 0
    requires cfg.crypto.merkle(cfg.parentState) == cfg.parentRoot
    requires cfg.confirmationDepth == 0 && cfg.replayFromBlock == 0
    requires k in core.pending && core.pending[k].state != Expired && core.pending[k].parentRoot == cfg.parentRoot
    requires core.pending[k].expiresAt <= now
    ensures next == Tick(cfg, core, FullReorg(cfg, core.snapshots[|core.snapshots| - 1].blockHash, now))
    ensures (cfg.parentRoot, core.pending[k].originalPatchHash) !in next.submitDedup
    ensures next.signingEnabled && next.liveRoot == cfg.parentRoot && next.liveState == cfg.parentState
    ensures next.frozen == core.frozen
    ensures next.reservations == Watcher.Unexpired(core.reservations, now)
  {
    var r := FullReorg(cfg, core.snapshots[|core.snapshots| - 1].blockHash, now);
    next := Tick(cfg, core, r);
    NoneSurvives(core.snapshots, r.hashes.at);
    var back := HandleReorg(cfg, core, r.hashes.at);
    assert core.snapshots[..0] == [];
    RollbackMarks(cfg, core, applied, 0, k);
    ReorgSettles(cfg, core, r);
    var checked := ParityChecked(back, (cfg.parentRoot, 0));
    RollbackKeepsStates(cfg, core, 0);
    assert checked.pending[k].state == Pending && Expiring(checked.pending[k], now);
    assert (cfg.parentRoot, core.pending[k].originalPatchHash) in Released(checked.pending, now);
  }

  lemma SweptAtExpiry(core: Core, now: int, key: DedupKey, m: Miner, k: Hash)
    requires core.submitDedup.Keys <= {key} && (key in core.submitDedup ==> core.submitDedup[key] <= now)
    requires core.reservations.Keys <= {m} && (m in core.reservations ==> core.reservations[m].expiresAt <= now)
    requires k in core.pending && core.pending[k].state != Pending
    ensures var swept := GcPending(core, now);
            swept.submitDedup == map[] && swept.reservations == map[] && k in swept.pending
            && swept.pending[k] == core.pending[k]
  {
  }

  /** The second receipt of the run below: a screener pass for the same patch, after the first has expired. */
  lemma SignedAgain(cfg: Config, w: World, s: Submit, hash: Option<Hash>, k: Hash) returns (v: World)
    requires w.lane.Idle? && !w.ticking && !w.core.frozen && w.core.signingEnabled
    requires s.parentStateRoot == w.core.liveRoot && cfg.crypto.wireParent(s.patchBytes) == w.core.liveRoot
    requires cfg.crypto.applyPatch(w.core.liveState, s.patchBytes).Some?
    requires w.core.submitDedup.Keys <= {(w.core.liveRoot, Original(cfg, s))}
    requires forall d :: d in w.core.submitDedup ==> w.core.submitDedup[d] <= w.clock
    requires w.core.reservations.Keys <= {s.miner}
    requires forall m :: m in w.core.reservations ==> w.core.reservations[m].expiresAt <= w.clock
    requires w.onChain(s.miner).screenersThisEpoch < cfg.perMinerScreenerCap
    requires k in w.core.pending && w.core.pending[k].state != Pending
    ensures v == Run(cfg, w, SubmitSteps(cfg, s, ScreenerPass(true), hash))
    ensures v.lane.Idle? && v == w.(core := v.core, signed := v.signed) && |v.signed| == |w.signed| + 1
    ensures v.core == w.core.(pending := v.core.pending, submitDedup := v.core.submitDedup,
                              reservations := v.core.reservations)
    ensures k in v.core.pending && v.core.pending[k] == w.core.pending[k]
    ensures var r := v.signed[|w.signed|];
            && KeyOf(r) == (w.core.liveRoot, Original(cfg, s)) && r.expiresAt == w.clock + cfg.receiptTtlSec
            && v.core.reservations == map[s.miner := Reservation(w.onChain(s.miner).nextIndex + 1, hash, r.expiresAt)]
  {
    SweptAtExpiry(w.core, w.clock, (w.core.liveRoot, Original(cfg, s)), s.miner, k);
    SubmitSignsIff(cfg, w, s, ScreenerPass(true), hash);
    v := Run(cfg, w, SubmitSteps(cfg, s, ScreenerPass(true), hash));
  }

  /** And the third, which builds on the second. */
  lemma SignedOnceMore(cfg: Config, w: World, s: Submit, hash: Option<Hash>) returns (v: World)
    requires w.lane.Idle? && !w.ticking && !w.core.frozen && w.core.signingEnabled
    requires s.parentStateRoot == w.core.liveRoot && cfg.crypto.wireParent(s.patchBytes) == w.core.liveRoot
    requires cfg.crypto.applyPatch(w.core.liveState, s.patchBytes).Some?
    requires (w.core.liveRoot, Original(cfg, s)) !in w.core.submitDedup
    requires s.miner in w.core.reservations && w.core.reservations[s.miner].lastReceiptHash.Some?
    requires w.core.reservations[s.miner].expiresAt > w.clock
    requires w.core.reservations[s.miner].nextIndex == w.onChain(s.miner).nextIndex + 1
    requires w.onChain(s.miner).screenersThisEpoch + 1 < cfg.perMinerScreenerCap
    ensures v == Run(cfg, w, SubmitSteps(cfg, s, ScreenerPass(true), hash))
    ensures v.clock == w.clock && |v.signed| == |w.signed| + 1 && v.signed[..|w.signed|] == w.signed
    ensures var r := v.signed[|w.signed|];
            KeyOf(r) == (w.core.liveRoot, Original(cfg, s)) && r.expiresAt == w.clock + cfg.receiptTtlSec
  {
    SubmitSignsIff(cfg, w, s, ScreenerPass(true), hash);
    v := Run(cfg, w, SubmitSteps(cfg, s, ScreenerPass(true), hash));
  }

  lemma SameRootSameState(cfg: Config, core: Core, applied: seq<Event>)
    requires RootsBind(cfg.crypto) && Replays(cfg, core, applied) && core.liveRoot == cfg.parentRoot
    requires cfg.crypto.merkle(cfg.parentState) == cfg.parentRoot
    ensures core.liveState == cfg.parentState
  {
  }

  /** What the run below is given: a submit that the launch state accepts, and advances that lead from the
      launch root back to it. */
  ghost predicate ThereAndBack(cfg: Config, s: Submit, delta: int, batch: seq<Event>) {
    && RootsBind(cfg.crypto) && cfg.crypto.merkle(cfg.parentState) == cfg.parentRoot
    && cfg.confirmationDepth == 0 && cfg.replayFromBlock == 0 && cfg.receiptTtlSec > 0
    && Preparable(cfg, Launched(cfg).(signingEnabled := true), s)
    && cfg.crypto.applyPatch(cfg.parentState, cfg.crypto.rescore(s.patchBytes, delta)).Some?
    && Progress.Acceptable(cfg, batch) && batch != [] && batch[|batch| - 1].log.newRoot == cfg.parentRoot
  }

  /** Its world before the rollback: two receipts signed for one key, the first expired, its entry kept. */
  ghost predicate BeforeRollback(cfg: Config, s: Submit, batch: seq<Event>, hash: Hash, v: World, k: Hash) {
    && v.lane.Idle? && !v.ticking && !v.core.frozen && |v.signed| == 2
    && KeyOf(v.signed[1]) == (cfg.parentRoot, Original(cfg, s)) && v.signed[1].expiresAt == v.clock + cfg.receiptTtlSec
    && Replays(cfg, v.core, batch) && StatesKept(cfg, v.core) && |v.core.snapshots| > 0
    && k in v.core.pending && v.core.pending[k].state != Expired && v.core.pending[k].parentRoot == cfg.parentRoot
    && v.core.pending[k].originalPatchHash == Original(cfg, s) && v.core.pending[k].expiresAt <= v.clock
    && v.core.reservations ==
       map[s.miner := Reservation(v.onChain(s.miner).nextIndex + 1, Some(hash), v.signed[1].expiresAt)]
  }

  /** Its world after the first receipt. */
  ghost predicate SignedFirst(cfg: Config, s: Submit, w: World, k: Hash) {
    && w.lane.Idle? && !w.ticking && |w.signed| == 1 && !w.core.frozen && w.core.lastScannedBlock == 0
    && Replays(cfg, w.core, []) && StatesKept(cfg, w.core)
    && k in w.core.pending && w.core.pending[k].state == Pending && w.core.pending[k].parentRoot == cfg.parentRoot
    && w.core.pending[k].originalPatchHash == Original(cfg, s)
    && w.core.pending[k].expiresAt == w.clock + cfg.receiptTtlSec
    && w.core.submitDedup == map[(cfg.parentRoot, Original(cfg, s)) := w.clock + cfg.receiptTtlSec]
    && w.core.reservations.Keys == {s.miner}
    && w.core.reservations[s.miner].expiresAt == w.clock + cfg.receiptTtlSec
  }

  /** Its world after the advances, when the first receipt has expired. */
  ghost predicate FirstExpired(cfg: Config, s: Submit, batch: seq<Event>, v: World, k: Hash) {
    && v.lane.Idle? && !v.ticking && |v.signed| == 1 && !v.core.frozen && v.core.signingEnabled
    && Replays(cfg, v.core, batch) && StatesKept(cfg, v.core) && |v.core.snapshots| > 0
    && v.core.liveRoot == cfg.parentRoot && v.core.liveState == cfg.parentState
    && k in v.core.pending && v.core.pending[k].state != Expired && v.core.pending[k].state != Pending
    && v.core.pending[k].parentRoot == cfg.parentRoot && v.core.pending[k].originalPatchHash == Original(cfg, s)
    && v.core.pending[k].expiresAt <= v.clock
    && v.core.submitDedup.Keys <= {(cfg.parentRoot, Original(cfg, s))}
    && (forall d :: d in v.core.submitDedup ==> v.core.submitDedup[d] <= v.clock)
    && v.core.reservations.Keys <= {s.miner}
    && (forall m :: m in v.core.reservations ==> v.core.reservations[m].expiresAt <= v.clock)
  }

  lemma AwayAndBack(cfg: Config, w: World, s: Submit, delta: int, batch: seq<Event>, k: Hash)
    returns (steps: seq<Step>, v: World)
    requires ThereAndBack(cfg, s, delta, batch) && SignedFirst(cfg, s, w, k)
    ensures v == Run(cfg, w, steps) && FirstExpired(cfg, s, batch, v, k) && v.onChain == w.onChain
  {
    var later := w.clock + cfg.receiptTtlSec;
    var r := CalmReads(cfg, 1, batch, (batch[|batch| - 1].log.newRoot, |batch|), w.clock);
    var core := CalmTick(cfg, w.core, batch, 1, w.clock, k);
    SameRootSameState(cfg, core, batch);
    var ticked := TickStep(cfg, w, r);
    RunOne(cfg, ticked, Clock(later));
    RunThen(cfg, w, [TickBegin, TickEnd(r)], [Clock(later)]);
    steps := [TickBegin, TickEnd(r)] + [Clock(later)];
    v := ticked.(clock := later);
  }

  lemma TwiceInTurn(cfg: Config, w: World, s: Submit, delta: int, hash: Hash, batch: seq<Event>, k: Hash)
    returns (steps: seq<Step>, v: World)
    requires ThereAndBack(cfg, s, delta, batch) && w.onChain(s.miner).screenersThisEpoch < cfg.perMinerScreenerCap
    requires SignedFirst(cfg, s, w, k)
    ensures v == Run(cfg, w, steps) && BeforeRollback(cfg, s, batch, hash, v, k) && v.onChain == w.onChain
  {
    var away, expired := AwayAndBack(cfg, w, s, delta, batch, k);
    v := SignedAgain(cfg, expired, s, Some(hash), k);
    var again := SubmitSteps(cfg, s, ScreenerPass(true), Some(hash));
    RunThen(cfg, w, away, again);
    steps := away + again;
  }

  lemma ThirdTime(cfg: Config, v: World, s: Submit, delta: int, hash: Hash, batch: seq<Event>, k: Hash)
    returns (steps: seq<Step>)
    requires ThereAndBack(cfg, s, delta, batch) && BeforeRollback(cfg, s, batch, hash, v, k)
    requires v.onChain(s.miner).screenersThisEpoch + 1 < cfg.perMinerScreenerCap
    ensures !NoTwins(Run(cfg, v, steps))
  {
    var r := FullReorg(cfg, v.core.snapshots[|v.core.snapshots| - 1].blockHash, v.clock);
    var core := KeyGivenBack(cfg, v.core, batch, v.clock, k);
    var back := TickStep(cfg, v, r);
    var end := SignedOnceMore(cfg, back, s, Some(hash));
    var again := SubmitSteps(cfg, s, ScreenerPass(true), Some(hash));
    RunThen(cfg, v, [TickBegin, TickEnd(r)], again);
    steps := [TickBegin, TickEnd(r)] + again;
    assert end.signed[1] == v.signed[1];
    assert Live(end, 1) && Live(end, 2) && KeyOf(end.signed[1]) == KeyOf(end.signed[2]);
  }

  /** The condition on rollbacks is needed. A state advance is signed on the launch root; advances lead away
      from that root and back to it; the receipt expires; the same patch is signed again; then all the
      advances are rolled back. The old receipt is pending again, is swept, and gives back the key it shares
      with the second one, so that the same patch is signed a third time: two receipts of one key can land. */
  lemma RollbackSignsTwice(cfg: Config, s: Submit, delta: int, clock: int, onChain: Miner -> Counters,
                           hash: Hash, batch: seq<Event>) returns (steps: seq<Step>)
    requires ThereAndBack(cfg, s, delta, batch) && onChain(s.miner).screenersThisEpoch + 1 < cfg.perMinerScreenerCap
    ensures Boot(cfg, true, 0, [], (cfg.parentRoot, 0)).Some?
    ensures !NoTwins(Run(cfg, Booted(cfg, true, 0, [], (cfg.parentRoot, 0), clock, onChain), steps))
  {
    var w, k := LaunchedAndSigned(cfg, s, delta, clock, onChain, Some(hash));
    var first := SubmitSteps(cfg, s, StateAdvance(true, delta), Some(hash));
    var w0 := Booted(cfg, true, 0, [], (cfg.parentRoot, 0), clock, onChain);
    var more, v := TwiceInTurn(cfg, w, s, delta, hash, batch, k);
    var last := ThirdTime(cfg, v, s, delta, hash, batch, k);
    RunThen(cfg, w0, first, more);
    RunThen(cfg, w0, first + more, last);
    steps := first + more + last;
  }
}
