/** The coordinator's watcher: replaying chain events into the live state, the bounded snapshot
    window, rollback on a reorg, and the bookkeeping of signed receipts. */
module Watcher {
  import opened Wrappers
  import opened Chain

  const MAX_SNAPSHOTS := 64

  type Miner = int

  /** The code of the state package, kept abstract: deterministic functions of their arguments. */
  datatype Crypto = Crypto(
    applyPatch: (CortexState, Bytes) -> Option<CortexState>,  // None: undecodable or rejected
    wordCount: Bytes -> nat,
    wireParent: Bytes -> Hash,
    rescore: (Bytes, int) -> Bytes,                            // re-encode with another scoreDelta
    patchHash: Bytes -> Hash,
    merkle: CortexState -> Hash)

  datatype Config = Config(
    crypto: Crypto, blockHash: Blocks -> Hash,
    epoch: nat, parentState: CortexState, parentRoot: Hash,
    coreV: Hash, corpus: Hash, frontier: Hash,
    confirmationDepth: nat, replayFromBlock: nat, receiptTtlSec: nat, perMinerScreenerCap: nat)

  datatype Snapshot = Snapshot(transitionIndex: int, blockNumber: nat, blockHash: Hash,
                               parent: Hash, root: Hash, patchHash: Hash, state: CortexState)

  datatype PendingState = Pending | Confirmed | Stale | Expired

  datatype PendingReceipt = PendingReceipt(
    originalPatchHash: Hash, signedPatchHash: Hash, parentRoot: Hash, expectedNewRoot: Hash,
    compactPatchBytes: Bytes, miner: Miner, expiresAt: int, state: PendingState)

  /** The next (solveIndex, prevReceiptHash) a follow-up receipt of a miner must use. */
  datatype Reservation = Reservation(nextIndex: nat, lastReceiptHash: Option<Hash>, expiresAt: int)

  datatype Core = Core(
    liveState: CortexState, liveRoot: Hash, lastTransitionIndex: int,
    stateByRoot: map<Hash, CortexState>, snapshots: seq<Snapshot>, lastScannedBlock: int,
    signingEnabled: bool,
    pending: map<Hash, PendingReceipt>, submitDedup: map<(Hash, Hash), int>,
    reservations: map<Miner, Reservation>,
    frozen: bool, freezeGeneration: nat)

  /** Replaying the chain touches neither the reservations nor the freeze. */
  predicate SameLedger(a: Core, b: Core) {
    a.reservations == b.reservations && a.frozen == b.frozen && a.freezeGeneration == b.freezeGeneration
  }

  // ── one chain event ──────────────────────────────────────────────────────────

  function AfterEvent(p: PendingReceipt, log: Log): PendingReceipt {
    if p.state != Pending || p.parentRoot != log.parent then p
    else p.(state := if p.signedPatchHash == log.patchHash then Confirmed else Stale)
  }

  function MarkAll(pending: map<Hash, PendingReceipt>, log: Log): map<Hash, PendingReceipt> {
    map k | k in pending :: AfterEvent(pending[k], log)
  }

  function Pushed(snapshots: seq<Snapshot>, s: Snapshot): (r: seq<Snapshot>) {
    var grown := snapshots + [s];
    if |grown| > MAX_SNAPSHOTS then grown[1..] else grown
  }

  /** The checks of applyChainEvent that precede decoding the patch. */
  predicate Contiguous(cfg: Config, core: Core, log: Log) {
    && log.epoch == cfg.epoch
    && log.transitionIndex == core.lastTransitionIndex + 1
    && log.parent == core.liveRoot
    && log.coreV == cfg.coreV && log.corpus == cfg.corpus && log.frontier == cfg.frontier
    && log.patchHash == cfg.crypto.patchHash(log.patchBytes)
  }

  /** applyChainEvent; None is a throw, which leaves the coordinator unchanged. */
  function ApplyChainEvent(cfg: Config, core: Core, ev: Event): (r: Option<Core>)
    ensures r.Some? ==> SameLedger(r.value, core)
  {
    var log := ev.log;
    if log.epoch < cfg.epoch then Some(core)
    else if !Contiguous(cfg, core, log) then None
    else
      match cfg.crypto.applyPatch(core.liveState, log.patchBytes)
      case None => None
      case Some(next) =>
        var newRoot := cfg.crypto.merkle(next);
        if log.wordCount != cfg.crypto.wordCount(log.patchBytes) || newRoot != log.newRoot then None
        else Some(Commit(core, ev, next, newRoot))
  }

  function Commit(core: Core, ev: Event, next: CortexState, newRoot: Hash): Core {
    core.(liveState := next, liveRoot := newRoot, lastTransitionIndex := ev.log.transitionIndex,
          stateByRoot := core.stateByRoot[newRoot := next],
          snapshots := Pushed(core.snapshots,
                              Snapshot(ev.log.transitionIndex, ev.blockNumber, ev.blockHash,
                                       ev.log.parent, newRoot, ev.log.patchHash, next)),
          pending := MarkAll(core.pending, ev.log))
  }

  /** Applies a batch event by event; `false` if some event threw, with the earlier ones kept. */
  function ApplyBatch(cfg: Config, core: Core, batch: seq<Event>): (r: (Core, bool))
    ensures SameLedger(r.0, core)
    decreases |batch|
  {
    if batch == [] then (core, true)
    else
      match ApplyChainEvent(cfg, core, batch[0])
      case None => (core, false)
      case Some(next) => ApplyBatch(cfg, next, batch[1..])
  }

  // ── reorg rollback ───────────────────────────────────────────────────────────

  predicate SnapshotCanonical(cfg: Config, chain: Blocks, s: Snapshot) {
    Canonical(cfg.blockHash, chain, s.blockNumber, s.blockHash)
  }

  /** What the nodes answer for the block hashes a tick asks for: the newest snapshot's, and in the
      rollback scan the i-th snapshot's. Any answers, related or not; not readable if a call throws. */
  datatype HashReads = HashReads(readable: bool, newest: Option<Hash>, at: nat -> Option<Hash>)

  /** How many snapshots survive: all up to the newest one whose block is answered for. */
  function Surviving(snapshots: seq<Snapshot>, at: nat -> Option<Hash>): (n: nat)
    ensures n <= |snapshots|
    ensures n > 0 ==> at(n - 1) == Some(snapshots[n - 1].blockHash)
    ensures forall i :: n <= i < |snapshots| ==> at(i) != Some(snapshots[i].blockHash)
  {
    if snapshots == [] then 0
    else if at(|snapshots| - 1) == Some(snapshots[|snapshots| - 1].blockHash) then |snapshots|
    else Surviving(snapshots[..|snapshots| - 1], at)
  }

  function Reopened(p: PendingReceipt): PendingReceipt {
    if p.state != Expired then p.(state := Pending) else p
  }

  function AfterSnapshot(p: PendingReceipt, s: Snapshot): PendingReceipt {
    if p.state != Pending || p.parentRoot != s.parent then p
    else p.(state := if p.signedPatchHash == s.patchHash then Confirmed else Stale)
  }

  function AfterSnapshots(p: PendingReceipt, snapshots: seq<Snapshot>): PendingReceipt {
    if snapshots == [] then p
    else AfterSnapshot(AfterSnapshots(p, snapshots[..|snapshots| - 1]), snapshots[|snapshots| - 1])
  }

  function Reconciled(pending: map<Hash, PendingReceipt>, snapshots: seq<Snapshot>): map<Hash, PendingReceipt> {
    map k | k in pending :: AfterSnapshots(Reopened(pending[k]), snapshots)
  }

  function Audited(pending: map<Hash, PendingReceipt>, stateByRoot: map<Hash, CortexState>): map<Hash, PendingReceipt> {
    map k | k in pending ::
      if pending[k].state == Pending && pending[k].parentRoot !in stateByRoot
      then pending[k].(state := Stale) else pending[k]
  }

  function KeptRoots(cfg: Config, snapshots: seq<Snapshot>): set<Hash> {
    (set i | 0 <= i < |snapshots| :: snapshots[i].root) + {cfg.parentRoot}
  }

  function RolledBack(cfg: Config, core: Core, n: nat): Core
    requires n <= |core.snapshots|
  {
    if n > 0 then
      var s := core.snapshots[n - 1];
      core.(snapshots := core.snapshots[..n], liveState := s.state, liveRoot := s.root,
            lastTransitionIndex := s.transitionIndex, lastScannedBlock := s.blockNumber)
    else
      core.(snapshots := [], liveState := cfg.parentState, liveRoot := cfg.parentRoot,
            lastTransitionIndex := -1,
            lastScannedBlock := if cfg.replayFromBlock == 0 then 0 else cfg.replayFromBlock - 1)
  }

  /** What handleReorg does after it has chosen the surviving snapshots. */
  function AfterRollback(cfg: Config, back: Core): (r: Core)
    ensures SameLedger(r, back)
  {
    var states := map r | r in back.stateByRoot && r in KeptRoots(cfg, back.snapshots) :: back.stateByRoot[r];
    back.(stateByRoot := states, signingEnabled := false,
          pending := Audited(Reconciled(back.pending, back.snapshots), states))
  }

  function HandleReorg(cfg: Config, core: Core, at: nat -> Option<Hash>): (r: Core)
    ensures SameLedger(r, core)
  {
    AfterRollback(cfg, RolledBack(cfg, core, Surviving(core.snapshots, at)))
  }

  // ── expiry sweep ─────────────────────────────────────────────────────────────

  predicate Expiring(p: PendingReceipt, now: int) {
    p.state == Pending && p.expiresAt <= now
  }

  function StillOpen(pending: map<Hash, PendingReceipt>, now: int): map<Hash, PendingReceipt> {
    map k | k in pending && !Expiring(pending[k], now) :: pending[k]
  }

  /** The dedup keys an expiry gives back, under the hash the miner submitted. */
  function Released(pending: map<Hash, PendingReceipt>, now: int): set<(Hash, Hash)> {
    set k | k in pending && Expiring(pending[k], now) :: (pending[k].parentRoot, pending[k].originalPatchHash)
  }

  function GcPending(core: Core, now: int): Core {
    var released := Released(core.pending, now);
    core.(pending := StillOpen(core.pending, now),
          submitDedup := map d | d in core.submitDedup && d !in released
            && core.submitDedup[d] > now :: core.submitDedup[d],
          reservations := Unexpired(core.reservations, now))
  }

  function Unexpired(reservations: map<Miner, Reservation>, now: int): map<Miner, Reservation> {
    map m | m in reservations && reservations[m].expiresAt > now :: reservations[m]
  }

  // ── boot and tick ────────────────────────────────────────────────────────────

  /** What one tick reads. A None read is an RPC call that threw. `chain` is the chain the answers are
      of where a result assumes that they are of one. */
  datatype TickReads = TickReads(
    epochNow: Option<nat>, head: Option<nat>, chain: Blocks, hashes: HashReads,
    batch: Option<seq<Event>>, registry: Option<(Hash, nat)>, now: int, transientInGrace: bool)

  function Faulted(core: Core, r: TickReads): Core {
    core.(signingEnabled := core.signingEnabled && r.transientInGrace)
  }

  predicate Parity(core: Core, registry: (Hash, nat)) {
    core.lastTransitionIndex + 1 == registry.1 && registry.0 == core.liveRoot
  }

  predicate NeedsReorg(core: Core, newest: Option<Hash>) {
    |core.snapshots| > 0 && newest.Some? && newest.value != core.snapshots[|core.snapshots| - 1].blockHash
  }

  function AfterReorgCheck(cfg: Config, core: Core, hashes: HashReads): (r: Core)
    ensures SameLedger(r, core)
  {
    if NeedsReorg(core, hashes.newest) then HandleReorg(cfg, core, hashes.at) else core
  }

  /** The scan of new blocks; `false` when it threw. */
  function Scanned(cfg: Config, core: Core, head: nat, r: TickReads): (out: (Core, bool))
    ensures SameLedger(out.0, core)
  {
    var safeHead := head - cfg.confirmationDepth;
    if safeHead <= core.lastScannedBlock then (core, true)
    else if r.batch.None? then (core, false)
    else
      var (applied, ok) := ApplyBatch(cfg, core, r.batch.value);
      if ok then (applied.(lastScannedBlock := safeHead), true) else (applied, false)
  }

  function ParityChecked(core: Core, registry: (Hash, nat)): Core {
    if Parity(core, registry)
    then core.(signingEnabled := true, pending := Audited(core.pending, core.stateByRoot))
    else core.(signingEnabled := false)
  }

  /** The rest of a tick once the reorg check is done: scan, parity gate, expiry sweep. */
  function Settled(cfg: Config, core: Core, head: nat, r: TickReads): (out: Core)
    ensures out.reservations == core.reservations || out.reservations == Unexpired(core.reservations, r.now)
    ensures out.frozen == core.frozen && out.freezeGeneration == core.freezeGeneration
  {
    var (scanned, ok) := Scanned(cfg, core, head, r);
    if !ok || r.registry.None? then Faulted(scanned, r)
    else GcPending(ParityChecked(scanned, r.registry.value), r.now)
  }

  /** tickInner after the frozen test. */
  function Tick(cfg: Config, core: Core, r: TickReads): (out: Core)
    ensures out.reservations == core.reservations || out.reservations == Unexpired(core.reservations, r.now)
    ensures out.frozen == core.frozen && out.freezeGeneration == core.freezeGeneration
  {
    if r.epochNow.None? then Faulted(core, r)
    else if r.epochNow.value != cfg.epoch then GcPending(core.(signingEnabled := false), r.now)
    else if r.head.None? || (|core.snapshots| > 0 && !r.hashes.readable) then Faulted(core, r)
    else Settled(cfg, AfterReorgCheck(cfg, core, r.hashes), r.head.value, r)
  }

  function Launched(cfg: Config): Core {
    Core(cfg.parentState, cfg.parentRoot, -1, map[cfg.parentRoot := cfg.parentState], [], 0, false,
         map[], map[], map[], false, 0)
  }

  /** boot: the parent substrate must merkleize to the pinned root, every replayed event must apply,
      and the registry must not be behind or contradict the replay. */
  function Boot(cfg: Config, wiringOk: bool, head: nat, batch: seq<Event>, registry: (Hash, nat)): Option<Core> {
    if !wiringOk || cfg.crypto.merkle(cfg.parentState) != cfg.parentRoot then None
    else
      var (core, ok) := ApplyBatch(cfg, Launched(cfg), batch);
      if !ok then None
      else
        var behind := head - cfg.confirmationDepth;
        var safeHead := if behind < cfg.replayFromBlock then cfg.replayFromBlock else behind;
        var booted := core.(lastScannedBlock := safeHead, signingEnabled := Parity(core, registry));
        if Parity(core, registry) || core.lastTransitionIndex + 1 < registry.1 then Some(booted) else None
  }

  // ── what replay means ────────────────────────────────────────────────────────

  /** Folding patches from the parent state; None if some patch does not apply. */
  function StateAfter(cfg: Config, applied: seq<Event>): Option<CortexState> {
    if applied == [] then Some(cfg.parentState)
    else
      match StateAfter(cfg, applied[..|applied| - 1])
      case None => None
      case Some(s) => cfg.crypto.applyPatch(s, applied[|applied| - 1].log.patchBytes)
  }

  /** Event i of the history is the i-th advance of the epoch and leads from root to root. */
  ghost predicate Linked(cfg: Config, applied: seq<Event>, i: nat)
    requires i < |applied|
  {
    var log := applied[i].log;
    var before, after := StateAfter(cfg, applied[..i]), StateAfter(cfg, applied[..i + 1]);
    && log.epoch == cfg.epoch && log.transitionIndex == i
    && before.Some? && log.parent == cfg.crypto.merkle(before.value)
    && after.Some? && log.newRoot == cfg.crypto.merkle(after.value)
    && log.patchHash == cfg.crypto.patchHash(log.patchBytes)
  }

  ghost predicate SnapshotOf(cfg: Config, s: Snapshot, applied: seq<Event>, i: int) {
    && 0 <= i < |applied|
    && s.transitionIndex == i
    && s.blockNumber == applied[i].blockNumber && s.blockHash == applied[i].blockHash
    && s.parent == applied[i].log.parent && s.patchHash == applied[i].log.patchHash
    && s.root == applied[i].log.newRoot
    && StateAfter(cfg, applied[..i + 1]) == Some(s.state)
  }

  ghost predicate LinkedHistory(cfg: Config, applied: seq<Event>) {
    forall i :: 0 <= i < |applied| ==> Linked(cfg, applied, i)
  }

  ghost predicate TailOf(cfg: Config, snapshots: seq<Snapshot>, applied: seq<Event>) {
    && |snapshots| <= MAX_SNAPSHOTS && |snapshots| <= |applied|
    && (applied != [] ==> snapshots != [])
    && (forall j :: 0 <= j < |snapshots| ==>
          SnapshotOf(cfg, snapshots[j], applied, |applied| - |snapshots| + j))
  }

  ghost predicate FoldOf(cfg: Config, live: CortexState, root: Hash, index: int, applied: seq<Event>) {
    && StateAfter(cfg, applied) == Some(live) && root == cfg.crypto.merkle(live)
    && index == |applied| - 1
  }

  /** The live fields are the fold of `applied`, and the snapshots are its tail. */
  ghost predicate Replays(cfg: Config, core: Core, applied: seq<Event>) {
    && FoldOf(cfg, core.liveState, core.liveRoot, core.lastTransitionIndex, applied)
    && LinkedHistory(cfg, applied)
    && TailOf(cfg, core.snapshots, applied)
  }

  /** Any chain that still holds the block of event i holds the whole history up to i. */
  ghost predicate Fixed(cfg: Config, applied: seq<Event>, i: nat)
    requires i < |applied|
  {
    forall chain ::
      RegistryNumbered(cfg.blockHash, chain, cfg.epoch) &&
      Canonical(cfg.blockHash, chain, applied[i].blockNumber, applied[i].blockHash) ==>
        applied[..i + 1] <= EpochEvents(cfg.blockHash, chain, cfg.epoch)
  }

  ghost predicate FixedHistory(cfg: Config, applied: seq<Event>) {
    forall i :: 0 <= i < |applied| ==> Fixed(cfg, applied, i)
  }

  /** A signed state advance: the bytes lead from the parent root to the promised root. */
  ghost predicate Promised(cfg: Config, p: PendingReceipt) {
    && p.signedPatchHash == cfg.crypto.patchHash(p.compactPatchBytes)
    && exists s :: LeadsTo(cfg, s, p)
  }

  ghost predicate LeadsTo(cfg: Config, s: CortexState, p: PendingReceipt) {
    var next := cfg.crypto.applyPatch(s, p.compactPatchBytes);
    cfg.crypto.merkle(s) == p.parentRoot && next.Some? && cfg.crypto.merkle(next.value) == p.expectedNewRoot
  }

  ghost predicate LandedAt(p: PendingReceipt, applied: seq<Event>, i: nat)
    requires i < |applied|
  {
    && applied[i].log.parent == p.parentRoot && applied[i].log.patchHash == p.signedPatchHash
    && applied[i].log.newRoot == p.expectedNewRoot
  }

  ghost predicate Landed(p: PendingReceipt, applied: seq<Event>) {
    exists i :: 0 <= i < |applied| && LandedAt(p, applied, i)
  }

  ghost predicate ReceiptSound(cfg: Config, p: PendingReceipt, applied: seq<Event>) {
    Promised(cfg, p) && (p.state == Confirmed ==> Landed(p, applied))
  }

  ghost predicate ReceiptsSound(cfg: Config, pending: map<Hash, PendingReceipt>, applied: seq<Event>) {
    forall k :: k in pending ==> ReceiptSound(cfg, pending[k], applied)
  }

  /** State roots and patch hashes do not collide, and block hashes commit to their prefix. */
  ghost predicate Binding(cfg: Config) {
    CommitsToPrefix(cfg.blockHash) && RootsBind(cfg.crypto) && PatchHashesBind(cfg.crypto)
  }

  ghost predicate RootsBind(c: Crypto) {
    forall s, t :: c.merkle(s) == c.merkle(t) ==> s == t
  }

  ghost predicate PatchHashesBind(c: Crypto) {
    forall a, b :: c.patchHash(a) == c.patchHash(b) ==> a == b
  }

  /** What holds in every run, whatever the nodes answer: the live fields fold a history whose tail
      are the snapshots, and confirmed receipts are in it. */
  ghost predicate Recorded(cfg: Config, core: Core, applied: seq<Event>) {
    Replays(cfg, core, applied) && ReceiptsSound(cfg, core.pending, applied)
  }

  /** What honest reads add: the history is a prefix of the epoch's events wherever its last block is. */
  ghost predicate Watching(cfg: Config, core: Core, applied: seq<Event>) {
    Recorded(cfg, core, applied) && FixedHistory(cfg, applied)
  }

  // ── how the history moves ────────────────────────────────────────────────────

  /** The advances a batch commits before it ends or throws. */
  function Accepted(cfg: Config, core: Core, batch: seq<Event>): (r: seq<Event>)
    ensures forall ev :: ev in r ==> ev in batch && ev.log.epoch == cfg.epoch
    decreases |batch|
  {
    if batch == [] then []
    else
      match ApplyChainEvent(cfg, core, batch[0])
      case None => []
      case Some(next) =>
        var rest := Accepted(cfg, next, batch[1..]);
        if batch[0].log.epoch == cfg.epoch then [batch[0]] + rest else rest
  }

  /** The history behind the first `n` snapshots. */
  function KeptHistory(snapshots: seq<Snapshot>, applied: seq<Event>, n: nat): seq<Event> {
    var k := |applied| - |snapshots| + n;
    if n == 0 || k < 0 || k > |applied| then [] else applied[..k]
  }

  /** The tick gets past its first reads. */
  predicate Proceeds(cfg: Config, core: Core, r: TickReads) {
    r.epochNow == Some(cfg.epoch) && r.head.Some? && (|core.snapshots| == 0 || r.hashes.readable)
  }

  function ScanAccepted(cfg: Config, core: Core, head: nat, r: TickReads): (a: seq<Event>)
    ensures forall ev :: ev in a ==> r.batch.Some? && ev in r.batch.value && ev.log.epoch == cfg.epoch
  {
    if head - cfg.confirmationDepth <= core.lastScannedBlock || r.batch.None? then []
    else Accepted(cfg, core, r.batch.value)
  }

  /** The advances a tick commits. */
  function TickAccepted(cfg: Config, core: Core, r: TickReads): (a: seq<Event>)
    ensures forall ev :: ev in a ==> r.batch.Some? && ev in r.batch.value && ev.log.epoch == cfg.epoch
  {
    if Proceeds(cfg, core, r) then ScanAccepted(cfg, AfterReorgCheck(cfg, core, r.hashes), r.head.value, r) else []
  }

  function ReorgHistory(core: Core, applied: seq<Event>, hashes: HashReads): seq<Event> {
    if NeedsReorg(core, hashes.newest) then KeptHistory(core.snapshots, applied, Surviving(core.snapshots, hashes.at))
    else applied
  }

  function TickHistory(cfg: Config, core: Core, applied: seq<Event>, r: TickReads): seq<Event> {
    if Proceeds(cfg, core, r) then ReorgHistory(core, applied, r.hashes) + TickAccepted(cfg, core, r) else applied
  }

  // ── lemmas about histories ───────────────────────────────────────────────────

  lemma LastFixed(cfg: Config, grown: seq<Event>, chain: Blocks)
    requires CommitsToPrefix(cfg.blockHash) && grown != []
    requires var ev := grown[|grown| - 1];
             ev.blockNumber < |chain| && ev.blockHash == cfg.blockHash(chain[..ev.blockNumber + 1]) &&
             grown <= EpochEvents(cfg.blockHash, chain[..ev.blockNumber + 1], cfg.epoch)
    ensures Fixed(cfg, grown, |grown| - 1)
  {
    var ev := grown[|grown| - 1];
    assert grown[..|grown|] == grown;
    forall other | RegistryNumbered(cfg.blockHash, other, cfg.epoch) &&
                   Canonical(cfg.blockHash, other, ev.blockNumber, ev.blockHash)
      ensures grown <= EpochEvents(cfg.blockHash, other, cfg.epoch)
    {
      SameHashSameEvents(cfg.blockHash, chain, other, ev.blockNumber, cfg.epoch);
    }
  }

  lemma NextEvent(cfg: Config, applied: seq<Event>, ev: Event, chain: Blocks)
    requires RegistryNumbered(cfg.blockHash, chain, cfg.epoch)
    requires applied <= EpochEvents(cfg.blockHash, chain, cfg.epoch)
    requires OnChain(cfg.blockHash, chain, ev) && ev.log.epoch == cfg.epoch && ev.log.transitionIndex == |applied|
    ensures applied + [ev] <= EpochEvents(cfg.blockHash, chain[..ev.blockNumber + 1], cfg.epoch)
    ensures applied + [ev] <= EpochEvents(cfg.blockHash, chain, cfg.epoch)
  {
    EventAtItsIndex(cfg.blockHash, chain, cfg.epoch, ev);
    EpochEventsPrefix(cfg.blockHash, chain, ev.blockNumber + 1, cfg.epoch);
  }

  lemma FixedStays(cfg: Config, applied: seq<Event>, other: seq<Event>, i: nat)
    requires i < |applied| && i < |other| && applied[..i + 1] == other[..i + 1]
    requires Fixed(cfg, applied, i)
    ensures Fixed(cfg, other, i)
  {
    assert applied[i] == applied[..i + 1][i] == other[i];
  }

  lemma HistoryGrows(cfg: Config, applied: seq<Event>, ev: Event, chain: Blocks)
    requires CommitsToPrefix(cfg.blockHash) && FixedHistory(cfg, applied)
    requires RegistryNumbered(cfg.blockHash, chain, cfg.epoch)
    requires applied <= EpochEvents(cfg.blockHash, chain, cfg.epoch)
    requires OnChain(cfg.blockHash, chain, ev) && ev.log.epoch == cfg.epoch && ev.log.transitionIndex == |applied|
    ensures FixedHistory(cfg, applied + [ev])
    ensures applied + [ev] <= EpochEvents(cfg.blockHash, chain, cfg.epoch)
  {
    var grown := applied + [ev];
    NextEvent(cfg, applied, ev, chain);
    LastFixed(cfg, grown, chain);
    forall i | 0 <= i < |applied|
      ensures Fixed(cfg, grown, i)
    {
      assert grown[..i + 1] == applied[..i + 1];
      FixedStays(cfg, applied, grown, i);
    }
  }

  lemma LinkedCut(cfg: Config, applied: seq<Event>, k: nat)
    requires k <= |applied| && LinkedHistory(cfg, applied)
    ensures LinkedHistory(cfg, applied[..k])
  {
    forall i | 0 <= i < k
      ensures Linked(cfg, applied[..k], i)
    {
      assert Linked(cfg, applied, i);
      assert applied[..k][..i] == applied[..i] && applied[..k][..i + 1] == applied[..i + 1];
    }
  }

  lemma FixedCut(cfg: Config, applied: seq<Event>, k: nat)
    requires k <= |applied| && FixedHistory(cfg, applied)
    ensures FixedHistory(cfg, applied[..k])
  {
    forall i | 0 <= i < k
      ensures Fixed(cfg, applied[..k], i)
    {
      assert applied[..k][..i + 1] == applied[..i + 1];
      FixedStays(cfg, applied, applied[..k], i);
    }
  }

  lemma LinkedGrows(cfg: Config, applied: seq<Event>, ev: Event)
    requires LinkedHistory(cfg, applied)
    requires Linked(cfg, applied + [ev], |applied|)
    ensures LinkedHistory(cfg, applied + [ev])
  {
    var grown := applied + [ev];
    forall i | 0 <= i < |applied|
      ensures Linked(cfg, grown, i)
    {
      assert Linked(cfg, applied, i);
      assert grown[..i] == applied[..i] && grown[..i + 1] == applied[..i + 1];
    }
  }

  lemma SnapshotStays(cfg: Config, s: Snapshot, applied: seq<Event>, other: seq<Event>, i: int)
    requires SnapshotOf(cfg, s, applied, i)
    requires i < |other| && other[..i + 1] == applied[..i + 1]
    ensures SnapshotOf(cfg, s, other, i)
  {
    assert other[i] == other[..i + 1][i] == applied[i];
  }

  lemma TailGrows(cfg: Config, snapshots: seq<Snapshot>, applied: seq<Event>, ev: Event, s: Snapshot)
    requires TailOf(cfg, snapshots, applied)
    requires SnapshotOf(cfg, s, applied + [ev], |applied|)
    ensures TailOf(cfg, Pushed(snapshots, s), applied + [ev])
  {
    var grown, pushed := applied + [ev], Pushed(snapshots, s);
    forall j | 0 <= j < |pushed|
      ensures SnapshotOf(cfg, pushed[j], grown, |grown| - |pushed| + j)
    {
      if j < |pushed| - 1 {
        var at := |grown| - |pushed| + j;
        var was := at - (|applied| - |snapshots|);
        assert pushed[j] == snapshots[was];
        assert grown[..at + 1] == applied[..at + 1];
        SnapshotStays(cfg, snapshots[was], applied, grown, at);
      }
    }
  }

  lemma CommitReplays(cfg: Config, core: Core, applied: seq<Event>, ev: Event)
    requires Replays(cfg, core, applied)
    requires ev.log.epoch == cfg.epoch && ApplyChainEvent(cfg, core, ev).Some?
    ensures Replays(cfg, ApplyChainEvent(cfg, core, ev).value, applied + [ev])
  {
    var next := ApplyChainEvent(cfg, core, ev).value;
    var grown := applied + [ev];
    assert grown[..|applied|] == applied && grown[..|applied| + 1] == grown;
    assert StateAfter(cfg, grown) == Some(next.liveState);
    LinkedGrows(cfg, applied, ev);
    TailGrows(cfg, core.snapshots, applied, ev, next.snapshots[|next.snapshots| - 1]);
  }

  /** With collision-free hashes, an event with a receipt's parent and patch has its result too. */
  lemma SamePatchSameRoot(cfg: Config, applied: seq<Event>, i: nat, p: PendingReceipt)
    requires Binding(cfg) && Promised(cfg, p)
    requires i < |applied| && Linked(cfg, applied, i)
    requires applied[i].log.parent == p.parentRoot && applied[i].log.patchHash == p.signedPatchHash
    ensures LandedAt(p, applied, i)
  {
    var s :| LeadsTo(cfg, s, p);
    var log := applied[i].log;
    assert log.patchBytes == p.compactPatchBytes;
    assert StateAfter(cfg, applied[..i]).value == s;
    assert applied[..i + 1][..i] == applied[..i];
    assert StateAfter(cfg, applied[..i + 1]) == cfg.crypto.applyPatch(s, log.patchBytes);
  }

  lemma LandedStays(p: PendingReceipt, applied: seq<Event>, later: seq<Event>)
    requires applied <= later && Landed(p, applied)
    ensures Landed(p, later)
  {
    var i :| 0 <= i < |applied| && LandedAt(p, applied, i);
    assert LandedAt(p, later, i);
  }

  lemma CommitReceipts(cfg: Config, core: Core, applied: seq<Event>, ev: Event)
    requires Binding(cfg) && Replays(cfg, core, applied) && ReceiptsSound(cfg, core.pending, applied)
    requires ev.log.epoch == cfg.epoch && ApplyChainEvent(cfg, core, ev).Some?
    ensures ReceiptsSound(cfg, ApplyChainEvent(cfg, core, ev).value.pending, applied + [ev])
  {
    CommitReplays(cfg, core, applied, ev);
    var next, grown := ApplyChainEvent(cfg, core, ev).value, applied + [ev];
    forall k | k in next.pending
      ensures ReceiptSound(cfg, next.pending[k], grown)
    {
      var p, q := core.pending[k], next.pending[k];
      PromiseKeepsState(cfg, p, q.state);
      if p.state == Confirmed {
        LandedStays(p, applied, grown);
      } else if q.state == Confirmed {
        SamePatchSameRoot(cfg, grown, |applied|, q);
      }
    }
  }

  lemma PromiseKeepsState(cfg: Config, p: PendingReceipt, state: PendingState)
    requires Promised(cfg, p)
    ensures Promised(cfg, p.(state := state))
  {
    var s :| LeadsTo(cfg, s, p);
    assert LeadsTo(cfg, s, p.(state := state));
  }

  /** Any log whatever: either nothing changes or the history grows by it. */
  lemma EventRecords(cfg: Config, core: Core, applied: seq<Event>, ev: Event)
    requires Binding(cfg) && Recorded(cfg, core, applied) && ApplyChainEvent(cfg, core, ev).Some?
    ensures var grown := if ev.log.epoch == cfg.epoch then applied + [ev] else applied;
            Recorded(cfg, ApplyChainEvent(cfg, core, ev).value, grown)
  {
    if ev.log.epoch == cfg.epoch {
      CommitReplays(cfg, core, applied, ev);
      CommitReceipts(cfg, core, applied, ev);
    }
  }

  lemma AcceptedStep(cfg: Config, core: Core, applied: seq<Event>, batch: seq<Event>)
    requires batch != [] && ApplyChainEvent(cfg, core, batch[0]).Some?
    ensures applied + Accepted(cfg, core, batch) ==
            (if batch[0].log.epoch == cfg.epoch then applied + [batch[0]] else applied)
            + Accepted(cfg, ApplyChainEvent(cfg, core, batch[0]).value, batch[1..])
  {
    Regroup(applied, [batch[0]], Accepted(cfg, ApplyChainEvent(cfg, core, batch[0]).value, batch[1..]));
  }

  lemma Regroup(a: seq<Event>, b: seq<Event>, c: seq<Event>)
    ensures a + (b + c) == a + b + c
  {
  }

  /** Any batch whatever, possibly stopped by a throw. */
  lemma {:induction false} BatchRecords(cfg: Config, core: Core, applied: seq<Event>, batch: seq<Event>)
    requires Binding(cfg) && Recorded(cfg, core, applied)
    ensures Recorded(cfg, ApplyBatch(cfg, core, batch).0, applied + Accepted(cfg, core, batch))
    decreases |batch|
  {
    if batch == [] || ApplyChainEvent(cfg, core, batch[0]).None? {
      assert applied + [] == applied;
    } else {
      AcceptedStep(cfg, core, applied, batch);
      EventRecords(cfg, core, applied, batch[0]);
      var grown := if batch[0].log.epoch == cfg.epoch then applied + [batch[0]] else applied;
      BatchRecords(cfg, ApplyChainEvent(cfg, core, batch[0]).value, grown, batch[1..]);
    }
  }

  lemma EventFixed(cfg: Config, core: Core, applied: seq<Event>, ev: Event, chain: Blocks)
    requires Binding(cfg) && Watching(cfg, core, applied)
    requires RegistryNumbered(cfg.blockHash, chain, cfg.epoch)
    requires applied <= EpochEvents(cfg.blockHash, chain, cfg.epoch)
    requires OnChain(cfg.blockHash, chain, ev) && ApplyChainEvent(cfg, core, ev).Some?
    ensures var grown := if ev.log.epoch == cfg.epoch then applied + [ev] else applied;
            Watching(cfg, ApplyChainEvent(cfg, core, ev).value, grown)
              && grown <= EpochEvents(cfg.blockHash, chain, cfg.epoch)
  {
    EventRecords(cfg, core, applied, ev);
    if ev.log.epoch == cfg.epoch {
      HistoryGrows(cfg, applied, ev, chain);
    }
  }

  /** A batch of logs of the served chain, in any order, with gaps or repeats, possibly stopped by a
      throw: the history stays a prefix of that chain's advances. */
  lemma {:induction false} BatchKeeps(cfg: Config, core: Core, applied: seq<Event>, batch: seq<Event>, chain: Blocks)
    requires Binding(cfg) && Watching(cfg, core, applied)
    requires RegistryNumbered(cfg.blockHash, chain, cfg.epoch)
    requires applied <= EpochEvents(cfg.blockHash, chain, cfg.epoch)
    requires forall ev :: ev in batch ==> OnChain(cfg.blockHash, chain, ev)
    ensures Watching(cfg, ApplyBatch(cfg, core, batch).0, applied + Accepted(cfg, core, batch))
    ensures applied + Accepted(cfg, core, batch) <= EpochEvents(cfg.blockHash, chain, cfg.epoch)
    decreases |batch|
  {
    if batch == [] || ApplyChainEvent(cfg, core, batch[0]).None? {
      assert applied + [] == applied;
    } else {
      AcceptedStep(cfg, core, applied, batch);
      EventFixed(cfg, core, applied, batch[0], chain);
      var grown := if batch[0].log.epoch == cfg.epoch then applied + [batch[0]] else applied;
      BatchKeeps(cfg, ApplyChainEvent(cfg, core, batch[0]).value, grown, batch[1..], chain);
    }
  }

  // ── rollback ─────────────────────────────────────────────────────────────────

  lemma {:induction false} AfterSnapshotsFacts(p: PendingReceipt, snapshots: seq<Snapshot>)
    ensures var q := AfterSnapshots(p, snapshots);
            q == p.(state := q.state) &&
            (q.state == Confirmed && p.state != Confirmed ==>
               exists j :: 0 <= j < |snapshots| && snapshots[j].parent == p.parentRoot
                 && snapshots[j].patchHash == p.signedPatchHash)
  {
    if snapshots != [] {
      AfterSnapshotsFacts(p, snapshots[..|snapshots| - 1]);
    }
  }

  lemma TailCut(cfg: Config, snapshots: seq<Snapshot>, applied: seq<Event>, n: nat)
    requires 0 < n <= |snapshots| && TailOf(cfg, snapshots, applied)
    ensures TailOf(cfg, snapshots[..n], applied[..|applied| - |snapshots| + n])
  {
    var kept := applied[..|applied| - |snapshots| + n];
    forall j | 0 <= j < n
      ensures SnapshotOf(cfg, snapshots[..n][j], kept, |kept| - n + j)
    {
      var at := |applied| - |snapshots| + j;
      assert kept[..at + 1] == applied[..at + 1];
      SnapshotStays(cfg, snapshots[j], applied, kept, at);
    }
  }

  lemma SnapshotFolds(cfg: Config, s: Snapshot, applied: seq<Event>, i: int)
    requires LinkedHistory(cfg, applied) && SnapshotOf(cfg, s, applied, i)
    ensures FoldOf(cfg, s.state, s.root, s.transitionIndex, applied[..i + 1])
  {
    assert Linked(cfg, applied, i);
  }

  lemma RollbackReplays(cfg: Config, core: Core, applied: seq<Event>, n: nat)
    requires Replays(cfg, core, applied) && cfg.crypto.merkle(cfg.parentState) == cfg.parentRoot
    requires n <= |core.snapshots|
    ensures Replays(cfg, RolledBack(cfg, core, n), KeptHistory(core.snapshots, applied, n))
    ensures KeptHistory(core.snapshots, applied, n) <= applied
  {
    if n > 0 {
      var k := |applied| - |core.snapshots| + n;
      SnapshotFolds(cfg, core.snapshots[n - 1], applied, k - 1);
      LinkedCut(cfg, applied, k);
      TailCut(cfg, core.snapshots, applied, n);
    }
  }

  lemma ReconcileSound(cfg: Config, core: Core, pending: map<Hash, PendingReceipt>, kept: seq<Event>)
    requires Binding(cfg) && Replays(cfg, core, kept)
    requires forall k :: k in pending ==> Promised(cfg, pending[k])
    ensures ReceiptsSound(cfg, Reconciled(pending, core.snapshots), kept)
  {
    var out := Reconciled(pending, core.snapshots);
    forall k | k in out
      ensures ReceiptSound(cfg, out[k], kept)
    {
      AfterSnapshotsFacts(Reopened(pending[k]), core.snapshots);
      PromiseKeepsState(cfg, pending[k], out[k].state);
      if out[k].state == Confirmed {
        var j :| 0 <= j < |core.snapshots| && core.snapshots[j].parent == out[k].parentRoot
          && core.snapshots[j].patchHash == out[k].signedPatchHash;
        var i := |kept| - |core.snapshots| + j;
        assert SnapshotOf(cfg, core.snapshots[j], kept, i);
        SamePatchSameRoot(cfg, kept, i, out[k]);
      }
    }
  }

  lemma AuditSound(cfg: Config, pending: map<Hash, PendingReceipt>, applied: seq<Event>, states: map<Hash, CortexState>)
    requires ReceiptsSound(cfg, pending, applied)
    ensures ReceiptsSound(cfg, Audited(pending, states), applied)
  {
    forall k | k in pending
      ensures ReceiptSound(cfg, Audited(pending, states)[k], applied)
    {
      assert ReceiptSound(cfg, pending[k], applied);
      PromiseKeepsState(cfg, pending[k], Audited(pending, states)[k].state);
    }
  }

  lemma TailDecides(cfg: Config, snapshots: seq<Snapshot>, applied: seq<Event>, chain: Blocks)
    requires TailOf(cfg, snapshots, applied) && FixedHistory(cfg, applied)
    requires RegistryNumbered(cfg.blockHash, chain, cfg.epoch)
    requires |snapshots| > 0 ==> SnapshotCanonical(cfg, chain, snapshots[|snapshots| - 1])
    ensures applied <= EpochEvents(cfg.blockHash, chain, cfg.epoch)
  {
    if applied != [] {
      assert SnapshotOf(cfg, snapshots[|snapshots| - 1], applied, |applied| - 1);
      assert Fixed(cfg, applied, |applied| - 1);
      assert applied[..|applied|] == applied;
    }
  }

  /** Whenever the newest snapshot is canonical, the whole history is a prefix of the canonical
      advances of the epoch. */
  lemma NewestDecides(cfg: Config, core: Core, applied: seq<Event>, chain: Blocks)
    requires Replays(cfg, core, applied) && FixedHistory(cfg, applied)
    requires RegistryNumbered(cfg.blockHash, chain, cfg.epoch)
    requires |core.snapshots| > 0 ==> SnapshotCanonical(cfg, chain, core.snapshots[|core.snapshots| - 1])
    ensures applied <= EpochEvents(cfg.blockHash, chain, cfg.epoch)
  {
    TailDecides(cfg, core.snapshots, applied, chain);
  }

  /** Rollback, to whichever snapshot the answers single out or past all of them, cuts the history to
      what survives. */
  lemma ReorgRecords(cfg: Config, core: Core, applied: seq<Event>, at: nat -> Option<Hash>)
    requires Binding(cfg) && Recorded(cfg, core, applied) && cfg.crypto.merkle(cfg.parentState) == cfg.parentRoot
    ensures Recorded(cfg, HandleReorg(cfg, core, at),
                     KeptHistory(core.snapshots, applied, Surviving(core.snapshots, at)))
  {
    var n := Surviving(core.snapshots, at);
    var back, kept := RolledBack(cfg, core, n), KeptHistory(core.snapshots, applied, n);
    RollbackReplays(cfg, core, applied, n);
    ReconcileSound(cfg, back, back.pending, kept);
    AuditSound(cfg, Reconciled(back.pending, back.snapshots), kept, AfterRollback(cfg, back).stateByRoot);
  }

  /** The answers are the hashes of one chain. */
  ghost predicate HonestHashes(cfg: Config, snapshots: seq<Snapshot>, hashes: HashReads, chain: Blocks) {
    && (|snapshots| > 0 ==> hashes.newest == BlockHashAt(cfg.blockHash, chain, snapshots[|snapshots| - 1].blockNumber))
    && (forall i :: 0 <= i < |snapshots| ==>
          hashes.at(i) == BlockHashAt(cfg.blockHash, chain, snapshots[i].blockNumber))
  }

  /** What remains after a rollback on honest answers is a prefix of the canonical events. */
  lemma ReorgKeeps(cfg: Config, core: Core, applied: seq<Event>, hashes: HashReads, chain: Blocks)
    requires Binding(cfg) && Watching(cfg, core, applied)
    requires cfg.crypto.merkle(cfg.parentState) == cfg.parentRoot
    requires RegistryNumbered(cfg.blockHash, chain, cfg.epoch) && HonestHashes(cfg, core.snapshots, hashes, chain)
    ensures var kept := KeptHistory(core.snapshots, applied, Surviving(core.snapshots, hashes.at));
            Watching(cfg, HandleReorg(cfg, core, hashes.at), kept) && kept <= applied
              && kept <= EpochEvents(cfg.blockHash, chain, cfg.epoch)
  {
    ReorgRecords(cfg, core, applied, hashes.at);
    SurvivorsCanonical(cfg, core.snapshots, applied, hashes, chain);
  }

  lemma SurvivorsCanonical(cfg: Config, snapshots: seq<Snapshot>, applied: seq<Event>, hashes: HashReads, chain: Blocks)
    requires TailOf(cfg, snapshots, applied) && FixedHistory(cfg, applied)
    requires RegistryNumbered(cfg.blockHash, chain, cfg.epoch) && HonestHashes(cfg, snapshots, hashes, chain)
    ensures var kept := KeptHistory(snapshots, applied, Surviving(snapshots, hashes.at));
            FixedHistory(cfg, kept) && kept <= applied && kept <= EpochEvents(cfg.blockHash, chain, cfg.epoch)
  {
    var n := Surviving(snapshots, hashes.at);
    if n > 0 {
      SurvivorIsCanonical(cfg, snapshots, hashes, chain);
      CutDecides(cfg, snapshots, applied, n, chain);
      assert KeptHistory(snapshots, applied, n) == applied[..|applied| - |snapshots| + n];
    }
  }

  lemma SurvivorIsCanonical(cfg: Config, snapshots: seq<Snapshot>, hashes: HashReads, chain: Blocks)
    requires HonestHashes(cfg, snapshots, hashes, chain) && Surviving(snapshots, hashes.at) > 0
    ensures SnapshotCanonical(cfg, chain, snapshots[Surviving(snapshots, hashes.at) - 1])
  {
  }

  lemma CutDecides(cfg: Config, snapshots: seq<Snapshot>, applied: seq<Event>, n: nat, chain: Blocks)
    requires TailOf(cfg, snapshots, applied) && FixedHistory(cfg, applied) && 0 < n <= |snapshots|
    requires RegistryNumbered(cfg.blockHash, chain, cfg.epoch) && SnapshotCanonical(cfg, chain, snapshots[n - 1])
    ensures var kept := applied[..|applied| - |snapshots| + n];
            FixedHistory(cfg, kept) && kept <= EpochEvents(cfg.blockHash, chain, cfg.epoch)
  {
    var k := |applied| - |snapshots| + n;
    FixedCut(cfg, applied, k);
    TailCut(cfg, snapshots, applied, n);
    TailDecides(cfg, snapshots[..n], applied[..k], chain);
  }

  // ── ticks ────────────────────────────────────────────────────────────────────

  /** What the RPC node owes one tick: hashes and logs of the chain it serves, in the range asked for. */
  ghost predicate HonestReads(cfg: Config, core: Core, r: TickReads) {
    && RegistryNumbered(cfg.blockHash, r.chain, cfg.epoch) && HonestHashes(cfg, core.snapshots, r.hashes, r.chain)
    && (r.batch.Some? ==> forall ev :: ev in r.batch.value ==>
          OnChain(cfg.blockHash, r.chain, ev) &&
          ev.blockNumber > AfterReorgCheck(cfg, core, r.hashes).lastScannedBlock)
  }

  /** The tick can see the block of its newest snapshot, or has already scanned past it. Only a
      tick after a fault in the middle of a batch, on a chain shorter than that block, fails this. */
  predicate NewestInSight(core: Core, chain: Blocks) {
    |core.snapshots| > 0 ==>
      var newest := core.snapshots[|core.snapshots| - 1];
      newest.blockNumber < |chain| || newest.blockNumber <= core.lastScannedBlock
  }

  lemma GcRecords(cfg: Config, core: Core, applied: seq<Event>, now: int)
    requires Recorded(cfg, core, applied)
    ensures Recorded(cfg, GcPending(core, now), applied)
  {
  }

  lemma ScanRecords(cfg: Config, core: Core, applied: seq<Event>, head: nat, r: TickReads)
    requires Binding(cfg) && Recorded(cfg, core, applied)
    ensures Recorded(cfg, Scanned(cfg, core, head, r).0, applied + ScanAccepted(cfg, core, head, r))
  {
    if head - cfg.confirmationDepth > core.lastScannedBlock && r.batch.Some? {
      BatchRecords(cfg, core, applied, r.batch.value);
    } else {
      assert applied + [] == applied;
    }
  }

  lemma SettleRecords(cfg: Config, core: Core, applied: seq<Event>, head: nat, r: TickReads)
    requires Binding(cfg) && Recorded(cfg, core, applied)
    ensures Recorded(cfg, Settled(cfg, core, head, r), applied + ScanAccepted(cfg, core, head, r))
  {
    var later := applied + ScanAccepted(cfg, core, head, r);
    var (scanned, ok) := Scanned(cfg, core, head, r);
    ScanRecords(cfg, core, applied, head, r);
    if ok && r.registry.Some? {
      AuditSound(cfg, scanned.pending, later, scanned.stateByRoot);
      GcRecords(cfg, ParityChecked(scanned, r.registry.value), later, r.now);
    }
  }

  /** Every tick, whatever is read and whatever fails in it. */
  lemma TickRecords(cfg: Config, core: Core, applied: seq<Event>, r: TickReads)
    requires Binding(cfg) && Recorded(cfg, core, applied) && cfg.crypto.merkle(cfg.parentState) == cfg.parentRoot
    ensures Recorded(cfg, Tick(cfg, core, r), TickHistory(cfg, core, applied, r))
  {
    if Proceeds(cfg, core, r) {
      if NeedsReorg(core, r.hashes.newest) {
        ReorgRecords(cfg, core, applied, r.hashes.at);
      }
      SettleRecords(cfg, AfterReorgCheck(cfg, core, r.hashes), ReorgHistory(core, applied, r.hashes), r.head.value,
                    r);
    } else if r.epochNow.Some? && r.epochNow.value != cfg.epoch {
      GcRecords(cfg, core.(signingEnabled := false), applied, r.now);
    }
  }

  /** After the reorg check either the history is canonical or the newest block is out of sight. */
  lemma ReorgCheckKeeps(cfg: Config, core: Core, applied: seq<Event>, hashes: HashReads, chain: Blocks)
    requires Binding(cfg) && Watching(cfg, core, applied)
    requires cfg.crypto.merkle(cfg.parentState) == cfg.parentRoot
    requires RegistryNumbered(cfg.blockHash, chain, cfg.epoch) && HonestHashes(cfg, core.snapshots, hashes, chain)
    ensures var (checked, kept) := (AfterReorgCheck(cfg, core, hashes), ReorgHistory(core, applied, hashes));
            && Watching(cfg, checked, kept)
            && (NewestInSight(core, chain) ==>
                  kept <= EpochEvents(cfg.blockHash, chain, cfg.epoch) || |chain| <= checked.lastScannedBlock)
  {
    if NeedsReorg(core, hashes.newest) {
      ReorgKeeps(cfg, core, applied, hashes, chain);
    } else if |core.snapshots| == 0 || core.snapshots[|core.snapshots| - 1].blockNumber < |chain| {
      NewestDecides(cfg, core, applied, chain);
    }
  }

  /** A chain that ends at or before the last scanned block has no new logs. */
  lemma NothingNew(cfg: Config, core: Core, head: nat, r: TickReads)
    requires |r.chain| <= core.lastScannedBlock
    requires r.batch.Some? ==> forall ev :: ev in r.batch.value ==>
               OnChain(cfg.blockHash, r.chain, ev) && ev.blockNumber > core.lastScannedBlock
    ensures ScanAccepted(cfg, core, head, r) == []
  {
    var a := ScanAccepted(cfg, core, head, r);
    assert forall ev :: ev !in a;
  }

  /** Every tick on honest reads, whatever fails in it, keeps the history canonical, if the block of
      the newest snapshot is in sight or already scanned, or if nothing is accepted. */
  lemma TickKeeps(cfg: Config, core: Core, applied: seq<Event>, r: TickReads)
    requires Binding(cfg) && Watching(cfg, core, applied)
    requires cfg.crypto.merkle(cfg.parentState) == cfg.parentRoot
    requires HonestReads(cfg, core, r)
    requires NewestInSight(core, r.chain) || TickAccepted(cfg, core, r) == []
    ensures Watching(cfg, Tick(cfg, core, r), TickHistory(cfg, core, applied, r))
  {
    TickRecords(cfg, core, applied, r);
    if Proceeds(cfg, core, r) {
      var checked, kept := AfterReorgCheck(cfg, core, r.hashes), ReorgHistory(core, applied, r.hashes);
      ReorgCheckKeeps(cfg, core, applied, r.hashes, r.chain);
      assert kept + [] == kept;
      if TickAccepted(cfg, core, r) != [] {
        if |r.chain| <= checked.lastScannedBlock {
          NothingNew(cfg, checked, r.head.value, r);
        }
        BatchKeeps(cfg, checked, kept, r.batch.value, r.chain);
      }
    }
  }

  /** The history a boot leaves. */
  function BootHistory(cfg: Config, batch: seq<Event>): seq<Event> {
    Accepted(cfg, Launched(cfg), batch)
  }

  lemma BootRecords(cfg: Config, wiringOk: bool, head: nat, batch: seq<Event>, registry: (Hash, nat))
    requires Binding(cfg) && Boot(cfg, wiringOk, head, batch, registry).Some?
    ensures cfg.crypto.merkle(cfg.parentState) == cfg.parentRoot
    ensures Recorded(cfg, Boot(cfg, wiringOk, head, batch, registry).value, BootHistory(cfg, batch))
  {
    BatchRecords(cfg, Launched(cfg), [], batch);
    assert [] + BootHistory(cfg, batch) == BootHistory(cfg, batch);
  }

  lemma BootKeeps(cfg: Config, wiringOk: bool, head: nat, batch: seq<Event>, registry: (Hash, nat), chain: Blocks)
    requires Binding(cfg) && RegistryNumbered(cfg.blockHash, chain, cfg.epoch)
    requires forall ev :: ev in batch ==> OnChain(cfg.blockHash, chain, ev)
    requires Boot(cfg, wiringOk, head, batch, registry).Some?
    ensures Watching(cfg, Boot(cfg, wiringOk, head, batch, registry).value, BootHistory(cfg, batch))
  {
    BatchKeeps(cfg, Launched(cfg), [], batch, chain);
    assert [] + BootHistory(cfg, batch) == BootHistory(cfg, batch);
  }

  /** A log that names this parent, patch hash and result as the next advance, with the configured pins. */
  predicate NamesNext(cfg: Config, core: Core, log: Log, parent: Hash, patchHash: Hash, newRoot: Hash) {
    && log.epoch == cfg.epoch && log.transitionIndex == core.lastTransitionIndex + 1
    && log.coreV == cfg.coreV && log.corpus == cfg.corpus && log.frontier == cfg.frontier
    && log.parent == parent == core.liveRoot && log.newRoot == newRoot
    && log.patchHash == patchHash == cfg.crypto.patchHash(log.patchBytes)
    && log.wordCount == cfg.crypto.wordCount(log.patchBytes)
  }

  /** Bytes that lead from a state of the parent root to the new root. */
  ghost predicate Leads(cfg: Config, s: CortexState, bytes: Bytes, parent: Hash, patchHash: Hash, newRoot: Hash) {
    var next := cfg.crypto.applyPatch(s, bytes);
    && patchHash == cfg.crypto.patchHash(bytes) && cfg.crypto.merkle(s) == parent
    && next.Some? && cfg.crypto.merkle(next.value) == newRoot
  }

  /** A signed state advance that lands next on its parent, with the configured pins, is accepted, whether
      its entry is pending, stale or long swept: the live root becomes its new root. An entry still pending
      for it is confirmed. */
  lemma SignedAdvanceLands(cfg: Config, core: Core, applied: seq<Event>, ev: Event, s: CortexState, bytes: Bytes,
                           parent: Hash, patchHash: Hash, newRoot: Hash)
    requires Binding(cfg) && Replays(cfg, core, applied)
    requires Leads(cfg, s, bytes, parent, patchHash, newRoot)
             && NamesNext(cfg, core, ev.log, parent, patchHash, newRoot)
    ensures ApplyChainEvent(cfg, core, ev).Some? && ApplyChainEvent(cfg, core, ev).value.liveRoot == newRoot
    ensures forall k :: k in core.pending && core.pending[k].state == Pending && core.pending[k].parentRoot == parent
                        && core.pending[k].signedPatchHash == patchHash ==>
              ApplyChainEvent(cfg, core, ev).value.pending[k] == core.pending[k].(state := Confirmed)
  {
    assert ev.log.patchBytes == bytes;
    assert core.liveState == s;
  }

  // ── what survives out of sight, and what does not ────────────────────────────

  /** A history event is a log of its block on whatever chain has a block of that hash there. */
  ghost predicate Genuine(cfg: Config, ev: Event) {
    forall chain :: Canonical(cfg.blockHash, chain, ev.blockNumber, ev.blockHash) ==> ev.log in chain[ev.blockNumber]
  }

  ghost predicate GenuineHistory(cfg: Config, applied: seq<Event>) {
    forall i :: 0 <= i < |applied| ==> Genuine(cfg, applied[i])
  }

  lemma OnChainIsGenuine(cfg: Config, chain: Blocks, ev: Event)
    requires CommitsToPrefix(cfg.blockHash) && OnChain(cfg.blockHash, chain, ev)
    ensures Genuine(cfg, ev)
  {
    forall other | Canonical(cfg.blockHash, other, ev.blockNumber, ev.blockHash)
      ensures ev.log in other[ev.blockNumber]
    {
      SameHashSameEvents(cfg.blockHash, chain, other, ev.blockNumber, cfg.epoch);
      assert other[..ev.blockNumber + 1][ev.blockNumber] == chain[..ev.blockNumber + 1][ev.blockNumber];
    }
  }

  /** Logs of the served chain, complete or not, in range or not, numbered or not. */
  ghost predicate HonestLogs(cfg: Config, r: TickReads) {
    r.batch.Some? ==> forall ev :: ev in r.batch.value ==> OnChain(cfg.blockHash, r.chain, ev)
  }

  lemma GenuineAppend(cfg: Config, applied: seq<Event>, more: seq<Event>, chain: Blocks)
    requires CommitsToPrefix(cfg.blockHash) && GenuineHistory(cfg, applied)
    requires forall ev :: ev in more ==> OnChain(cfg.blockHash, chain, ev)
    ensures GenuineHistory(cfg, applied + more)
  {
    forall i | 0 <= i < |more|
      ensures Genuine(cfg, more[i])
    {
      OnChainIsGenuine(cfg, chain, more[i]);
    }
  }

  lemma TickGenuine(cfg: Config, core: Core, applied: seq<Event>, r: TickReads)
    requires CommitsToPrefix(cfg.blockHash) && GenuineHistory(cfg, applied) && HonestLogs(cfg, r)
    ensures GenuineHistory(cfg, TickHistory(cfg, core, applied, r))
  {
    if Proceeds(cfg, core, r) {
      GenuineAppend(cfg, ReorgHistory(core, applied, r.hashes), TickAccepted(cfg, core, r), r.chain);
    }
  }

  /** An event of a replayed history that stands at its index on a chain whose advances replay leads
      to the same state there: the root it announces fixes the state. */
  lemma SameStateThere(cfg: Config, applied: seq<Event>, events: seq<Event>, i: nat)
    requires RootsBind(cfg.crypto) && LinkedHistory(cfg, applied) && LinkedHistory(cfg, events)
    requires i < |applied| && i < |events| && applied[i].log.newRoot == events[i].log.newRoot
    ensures StateAfter(cfg, applied[..i + 1]) == StateAfter(cfg, events[..i + 1])
  {
    assert Linked(cfg, applied, i) && Linked(cfg, events, i);
  }

  lemma StandsAtItsIndex(cfg: Config, applied: seq<Event>, i: nat, chain: Blocks)
    requires LinkedHistory(cfg, applied) && i < |applied| && RegistryNumbered(cfg.blockHash, chain, cfg.epoch)
    requires OnChain(cfg.blockHash, chain, applied[i])
    ensures i < |EpochEvents(cfg.blockHash, chain, cfg.epoch)|
            && EpochEvents(cfg.blockHash, chain, cfg.epoch)[i] == applied[i]
  {
    assert Linked(cfg, applied, i);
    EventAtItsIndex(cfg.blockHash, chain, cfg.epoch, applied[i]);
    EpochEventsPrefix(cfg.blockHash, chain, applied[i].blockNumber + 1, cfg.epoch);
  }

  /** Whenever the newest snapshot is canonical the live fields are the fold of the canonical advances
      up to the live index, even where the snapshots are not the tail of that fold. */
  lemma LiveIsCanonicalFold(cfg: Config, core: Core, applied: seq<Event>, chain: Blocks)
    requires Binding(cfg) && Replays(cfg, core, applied) && GenuineHistory(cfg, applied)
    requires RegistryNumbered(cfg.blockHash, chain, cfg.epoch)
    requires LinkedHistory(cfg, EpochEvents(cfg.blockHash, chain, cfg.epoch))
    requires |core.snapshots| > 0 && SnapshotCanonical(cfg, chain, core.snapshots[|core.snapshots| - 1])
    ensures var events := EpochEvents(cfg.blockHash, chain, cfg.epoch);
            |applied| <= |events| &&
            FoldOf(cfg, core.liveState, core.liveRoot, core.lastTransitionIndex, events[..core.lastTransitionIndex + 1])
  {
    var n := |applied| - 1;
    assert SnapshotOf(cfg, core.snapshots[|core.snapshots| - 1], applied, n);
    assert Genuine(cfg, applied[n]);
    StandsAtItsIndex(cfg, applied, n, chain);
    SameStateThere(cfg, applied, EpochEvents(cfg.blockHash, chain, cfg.epoch), n);
    assert applied[..n + 1] == applied;
  }

  /** The claim about the snapshots: when the newest one is canonical, they are the tail of a prefix of
      the canonical advances. */
  ghost predicate TailCanonical(cfg: Config, core: Core, chain: Blocks) {
    |core.snapshots| > 0 && SnapshotCanonical(cfg, chain, core.snapshots[|core.snapshots| - 1]) ==>
      exists k :: 0 <= k <= |EpochEvents(cfg.blockHash, chain, cfg.epoch)|
                  && TailOf(cfg, core.snapshots, EpochEvents(cfg.blockHash, chain, cfg.epoch)[..k])
  }

  /** Snapshots in the tail of a prefix of a chain's advances are all canonical on it. */
  lemma TailsAreCanonical(cfg: Config, snapshots: seq<Snapshot>, chain: Blocks, k: nat, j: nat)
    requires k <= |EpochEvents(cfg.blockHash, chain, cfg.epoch)| && j < |snapshots|
    requires TailOf(cfg, snapshots, EpochEvents(cfg.blockHash, chain, cfg.epoch)[..k])
    ensures SnapshotCanonical(cfg, chain, snapshots[j])
  {
    var events := EpochEvents(cfg.blockHash, chain, cfg.epoch);
    assert SnapshotOf(cfg, snapshots[j], events[..k], k - |snapshots| + j);
    EpochEventsOnChain(cfg.blockHash, chain, cfg.epoch, k - |snapshots| + j);
  }

  /** Genuine snapshots that are all canonical on a chain whose advances replay are the tail of a prefix
      of its advances. */
  lemma CanonicalSnapshotsAreTail(cfg: Config, snapshots: seq<Snapshot>, applied: seq<Event>, chain: Blocks)
    requires Binding(cfg) && LinkedHistory(cfg, applied) && TailOf(cfg, snapshots, applied)
             && GenuineHistory(cfg, applied)
    requires RegistryNumbered(cfg.blockHash, chain, cfg.epoch) && snapshots != []
    requires LinkedHistory(cfg, EpochEvents(cfg.blockHash, chain, cfg.epoch))
    requires forall j :: 0 <= j < |snapshots| ==> SnapshotCanonical(cfg, chain, snapshots[j])
    ensures |applied| <= |EpochEvents(cfg.blockHash, chain, cfg.epoch)|
    ensures TailOf(cfg, snapshots, EpochEvents(cfg.blockHash, chain, cfg.epoch)[..|applied|])
  {
    var events := EpochEvents(cfg.blockHash, chain, cfg.epoch);
    forall i | |applied| - |snapshots| <= i < |applied|
      ensures i < |events| && events[i] == applied[i]
    {
      GenuineStands(cfg, snapshots[i - (|applied| - |snapshots|)], applied, i, chain);
    }
    GenuineStands(cfg, snapshots[|snapshots| - 1], applied, |applied| - 1, chain);
    TailThere(cfg, snapshots, applied, events);
  }

  /** A genuine event whose snapshot is canonical stands at its index. */
  lemma GenuineStands(cfg: Config, s: Snapshot, applied: seq<Event>, i: nat, chain: Blocks)
    requires LinkedHistory(cfg, applied) && SnapshotOf(cfg, s, applied, i) && GenuineHistory(cfg, applied)
    requires RegistryNumbered(cfg.blockHash, chain, cfg.epoch) && SnapshotCanonical(cfg, chain, s)
    ensures i < |EpochEvents(cfg.blockHash, chain, cfg.epoch)|
    ensures EpochEvents(cfg.blockHash, chain, cfg.epoch)[i] == applied[i]
  {
    assert Genuine(cfg, applied[i]);
    StandsAtItsIndex(cfg, applied, i, chain);
  }

  /** On a chain whose advances replay, the snapshots are the tail of a prefix of them exactly when each
      of their blocks is canonical there. */
  lemma TailCanonicalIffAllAre(cfg: Config, core: Core, applied: seq<Event>, chain: Blocks)
    requires Binding(cfg) && Replays(cfg, core, applied) && GenuineHistory(cfg, applied)
    requires RegistryNumbered(cfg.blockHash, chain, cfg.epoch)
    requires LinkedHistory(cfg, EpochEvents(cfg.blockHash, chain, cfg.epoch))
    requires |core.snapshots| > 0 && SnapshotCanonical(cfg, chain, core.snapshots[|core.snapshots| - 1])
    ensures TailCanonical(cfg, core, chain) <==>
              forall j :: 0 <= j < |core.snapshots| ==> SnapshotCanonical(cfg, chain, core.snapshots[j])
  {
    var events := EpochEvents(cfg.blockHash, chain, cfg.epoch);
    if TailCanonical(cfg, core, chain) {
      var k :| 0 <= k <= |events| && TailOf(cfg, core.snapshots, events[..k]);
      forall j | 0 <= j < |core.snapshots|
        ensures SnapshotCanonical(cfg, chain, core.snapshots[j])
      {
        TailsAreCanonical(cfg, core.snapshots, chain, k, j);
      }
    }
    if forall j :: 0 <= j < |core.snapshots| ==> SnapshotCanonical(cfg, chain, core.snapshots[j]) {
      CanonicalSnapshotsAreTail(cfg, core.snapshots, applied, chain);
    }
  }

  lemma {:induction false} BatchSnapshots(cfg: Config, core: Core, batch: seq<Event>)
    requires |core.snapshots| <= MAX_SNAPSHOTS
    ensures var (n, m) := (|core.snapshots| + |Accepted(cfg, core, batch)|, |ApplyBatch(cfg, core, batch).0.snapshots|);
            m == if n <= MAX_SNAPSHOTS then n else MAX_SNAPSHOTS
    decreases |batch|
  {
    if batch != [] && ApplyChainEvent(cfg, core, batch[0]).Some? {
      BatchSnapshots(cfg, ApplyChainEvent(cfg, core, batch[0]).value, batch[1..]);
    }
  }

  lemma ScanSnapshots(cfg: Config, core: Core, head: nat, r: TickReads)
    requires |core.snapshots| <= MAX_SNAPSHOTS
    ensures var (n, m) :=
            (|core.snapshots| + |ScanAccepted(cfg, core, head, r)|, |Scanned(cfg, core, head, r).0.snapshots|);
            m == if n <= MAX_SNAPSHOTS then n else MAX_SNAPSHOTS
    ensures ScanAccepted(cfg, core, head, r) == [] ==> Scanned(cfg, core, head, r).0.snapshots == core.snapshots
  {
    if head - cfg.confirmationDepth > core.lastScannedBlock && r.batch.Some? {
      BatchSnapshots(cfg, core, r.batch.value);
      if Accepted(cfg, core, r.batch.value) == [] {
        NothingAccepted(cfg, core, r.batch.value);
      }
    }
  }

  lemma SettledSnapshots(cfg: Config, core: Core, head: nat, r: TickReads)
    ensures Settled(cfg, core, head, r).snapshots == Scanned(cfg, core, head, r).0.snapshots
  {
  }

  /** Out of sight there is no rollback: the tick pushes what it accepts on the old snapshots. */
  lemma OutOfSightSnapshots(cfg: Config, core: Core, applied: seq<Event>, r: TickReads)
    requires |core.snapshots| <= MAX_SNAPSHOTS && !NewestInSight(core, r.chain)
    requires HonestHashes(cfg, core.snapshots, r.hashes, r.chain)
    ensures var (n, m) := (|core.snapshots| + |TickAccepted(cfg, core, r)|, |Tick(cfg, core, r).snapshots|);
            m == if n <= MAX_SNAPSHOTS then n else MAX_SNAPSHOTS
    ensures TickHistory(cfg, core, applied, r) == applied + TickAccepted(cfg, core, r)
  {
    assert !NeedsReorg(core, r.hashes.newest);
    if Proceeds(cfg, core, r) {
      ScanSnapshots(cfg, core, r.head.value, r);
      SettledSnapshots(cfg, core, r.head.value, r);
    } else {
      assert applied + [] == applied;
    }
  }

  lemma {:induction false} NothingAccepted(cfg: Config, core: Core, batch: seq<Event>)
    requires Accepted(cfg, core, batch) == []
    ensures ApplyBatch(cfg, core, batch).0 == core
    decreases |batch|
  {
    if batch != [] && ApplyChainEvent(cfg, core, batch[0]).Some? {
      NothingAccepted(cfg, core, batch[1..]);
    }
  }

  /** A snapshot of a block beyond the chain is in the tail of no prefix of its advances. */
  lemma NoTailBeyond(cfg: Config, snapshots: seq<Snapshot>, j: nat, chain: Blocks, k: nat)
    requires j < |snapshots| && snapshots[j].blockNumber >= |chain|
    requires k <= |EpochEvents(cfg.blockHash, chain, cfg.epoch)|
    ensures !TailOf(cfg, snapshots, EpochEvents(cfg.blockHash, chain, cfg.epoch)[..k])
  {
    if TailOf(cfg, snapshots, EpochEvents(cfg.blockHash, chain, cfg.epoch)[..k]) {
      TailsAreCanonical(cfg, snapshots, chain, k, j);
    }
  }

  /** The newest snapshot's block is beyond the chain and not scanned, and the tick accepts between one
      and 63 advances: its newest snapshot is canonical, an older one is of a block that is gone, and so
      no prefix of the canonical advances has the snapshots as its tail. */
  lemma OutOfSightBreaksTail(cfg: Config, core: Core, applied: seq<Event>, r: TickReads)
    requires Binding(cfg) && Recorded(cfg, core, applied) && cfg.crypto.merkle(cfg.parentState) == cfg.parentRoot
    requires HonestLogs(cfg, r) && HonestHashes(cfg, core.snapshots, r.hashes, r.chain) && !NewestInSight(core, r.chain)
    requires 1 <= |TickAccepted(cfg, core, r)| < MAX_SNAPSHOTS
    ensures var (next, events) := (Tick(cfg, core, r), EpochEvents(cfg.blockHash, r.chain, cfg.epoch));
            && |next.snapshots| > 0 && SnapshotCanonical(cfg, r.chain, next.snapshots[|next.snapshots| - 1])
            && (forall k :: 0 <= k <= |events| ==> !TailOf(cfg, next.snapshots, events[..k]))
  {
    var next, a := Tick(cfg, core, r), TickAccepted(cfg, core, r);
    TickRecords(cfg, core, applied, r);
    OutOfSightSnapshots(cfg, core, applied, r);
    NewestFromBatch(cfg, next.snapshots, applied, a, r.chain);
    var j := OlderStays(cfg, core.snapshots, next.snapshots, applied, a);
    forall k | 0 <= k <= |EpochEvents(cfg.blockHash, r.chain, cfg.epoch)|
      ensures !TailOf(cfg, next.snapshots, EpochEvents(cfg.blockHash, r.chain, cfg.epoch)[..k])
    {
      NoTailBeyond(cfg, next.snapshots, j, r.chain, k);
    }
  }

  lemma NewestFromBatch(cfg: Config, snapshots: seq<Snapshot>, applied: seq<Event>, a: seq<Event>, chain: Blocks)
    requires TailOf(cfg, snapshots, applied + a) && a != []
             && forall ev :: ev in a ==> OnChain(cfg.blockHash, chain, ev)
    ensures |snapshots| > 0 && SnapshotCanonical(cfg, chain, snapshots[|snapshots| - 1])
  {
    var later := applied + a;
    assert SnapshotOf(cfg, snapshots[|snapshots| - 1], later, |later| - 1);
    assert later[|later| - 1] == a[|a| - 1] && a[|a| - 1] in a;
  }

  /** The old newest snapshot is still among more snapshots than advances were accepted. */
  lemma OlderStays(cfg: Config, before: seq<Snapshot>, snapshots: seq<Snapshot>, applied: seq<Event>, a: seq<Event>)
    returns (j: nat)
    requires TailOf(cfg, before, applied) && TailOf(cfg, snapshots, applied + a) && before != [] && |snapshots| > |a|
    ensures j < |snapshots| && snapshots[j].blockNumber == before[|before| - 1].blockNumber
  {
    j := |snapshots| - |a| - 1;
    assert SnapshotOf(cfg, snapshots[j], applied + a, |applied| - 1);
    assert SnapshotOf(cfg, before[|before| - 1], applied, |applied| - 1);
    assert (applied + a)[|applied| - 1] == applied[|applied| - 1];
  }

  /** Snapshots that are the tail of one replayed history are the tail of another one that has the same
      events there. */
  lemma TailThere(cfg: Config, snapshots: seq<Snapshot>, later: seq<Event>, events: seq<Event>)
    requires RootsBind(cfg.crypto) && LinkedHistory(cfg, later) && LinkedHistory(cfg, events)
    requires TailOf(cfg, snapshots, later) && |later| <= |events|
    requires forall i :: |later| - |snapshots| <= i < |later| ==> events[i] == later[i]
    ensures TailOf(cfg, snapshots, events[..|later|])
  {
    forall j | 0 <= j < |snapshots|
      ensures SnapshotOf(cfg, snapshots[j], events[..|later|], |later| - |snapshots| + j)
    {
      var i := |later| - |snapshots| + j;
      assert SnapshotOf(cfg, snapshots[j], later, i);
      SnapshotThere(cfg, snapshots[j], later, events, i, |later|);
    }
  }

  lemma SnapshotThere(cfg: Config, s: Snapshot, later: seq<Event>, events: seq<Event>, i: nat, k: nat)
    requires RootsBind(cfg.crypto) && LinkedHistory(cfg, later) && LinkedHistory(cfg, events)
    requires SnapshotOf(cfg, s, later, i) && i < k <= |events| && later[i] == events[i]
    ensures SnapshotOf(cfg, s, events[..k], i)
  {
    SameStateThere(cfg, later, events, i);
    assert events[..k][..i + 1] == events[..i + 1];
  }

  lemma FullWindowKeepsTail(cfg: Config, core: Core, applied: seq<Event>, r: TickReads)
    requires Binding(cfg) && Recorded(cfg, core, applied) && cfg.crypto.merkle(cfg.parentState) == cfg.parentRoot
    requires HonestLogs(cfg, r) && HonestHashes(cfg, core.snapshots, r.hashes, r.chain) && !NewestInSight(core, r.chain)
    requires RegistryNumbered(cfg.blockHash, r.chain, cfg.epoch)
    requires LinkedHistory(cfg, EpochEvents(cfg.blockHash, r.chain, cfg.epoch))
    requires |TickAccepted(cfg, core, r)| >= MAX_SNAPSHOTS
    ensures TailCanonical(cfg, Tick(cfg, core, r), r.chain)
  {
    var next, a := Tick(cfg, core, r), TickAccepted(cfg, core, r);
    TickRecords(cfg, core, applied, r);
    OutOfSightSnapshots(cfg, core, applied, r);
    var later := applied + a;
    var events := EpochEvents(cfg.blockHash, r.chain, cfg.epoch);
    forall i | |applied| <= i < |later|
      ensures i < |events| && events[i] == later[i]
    {
      assert later[i] == a[i - |applied|] && a[i - |applied|] in a;
      StandsAtItsIndex(cfg, later, i, r.chain);
    }
    assert later[|later| - 1] == events[|later| - 1];
    TailThere(cfg, next.snapshots, later, events);
  }

  lemma CanonicalTail(cfg: Config, core: Core, applied: seq<Event>, chain: Blocks)
    requires Watching(cfg, core, applied) && RegistryNumbered(cfg.blockHash, chain, cfg.epoch)
    ensures TailCanonical(cfg, core, chain)
  {
    if |core.snapshots| > 0 && SnapshotCanonical(cfg, chain, core.snapshots[|core.snapshots| - 1]) {
      NewestDecides(cfg, core, applied, chain);
      assert EpochEvents(cfg.blockHash, chain, cfg.epoch)[..|applied|] == applied;
    }
  }

  /** The exact condition: after a tick on honest reads of a chain whose advances replay, the snapshots
      are the tail of a canonical prefix whenever the newest is canonical, if and only if the newest
      block was in sight or scanned, or the tick accepted no advance, or it accepted a whole window. */
  lemma TailStaysCanonicalIff(cfg: Config, core: Core, applied: seq<Event>, r: TickReads)
    requires Binding(cfg) && Watching(cfg, core, applied) && cfg.crypto.merkle(cfg.parentState) == cfg.parentRoot
    requires HonestReads(cfg, core, r) && LinkedHistory(cfg, EpochEvents(cfg.blockHash, r.chain, cfg.epoch))
    ensures TailCanonical(cfg, Tick(cfg, core, r), r.chain) <==>
            NewestInSight(core, r.chain) || |TickAccepted(cfg, core, r)| == 0
              || |TickAccepted(cfg, core, r)| >= MAX_SNAPSHOTS
  {
    if NewestInSight(core, r.chain) || |TickAccepted(cfg, core, r)| == 0 {
      TickKeeps(cfg, core, applied, r);
      CanonicalTail(cfg, Tick(cfg, core, r), TickHistory(cfg, core, applied, r), r.chain);
    } else if |TickAccepted(cfg, core, r)| >= MAX_SNAPSHOTS {
      FullWindowKeepsTail(cfg, core, applied, r);
    } else {
      OutOfSightBreaksTail(cfg, core, applied, r);
    }
  }

  lemma NoEvents(hash: Blocks -> Hash, chain: Blocks, epoch: nat)
    ensures EpochEvents(hash, chain + [[]], epoch) == EpochEvents(hash, chain, epoch)
  {
    assert (chain + [[]])[..|chain|] == chain;
  }

  lemma OneLog(log: Log, number: nat, blockHash: Hash)
    ensures EpochEventsOf([log], number, blockHash, log.epoch) == [Event(number, blockHash, log)]
  {
    assert [log][..0] == [];
  }

  lemma TwoLogs(a: Log, b: Log, number: nat, blockHash: Hash)
    requires a.epoch == b.epoch
    ensures EpochEventsOf([a, b], number, blockHash, a.epoch) ==
            [Event(number, blockHash, a), Event(number, blockHash, b)]
  {
    assert [a, b][..1] == [a];
    OneLog(a, number, blockHash);
  }

  /** Both logs in the third block. */
  lemma LateChainNumbered(hash: Blocks -> Hash, a: Log, b: Log)
    requires a.epoch == b.epoch && a.transitionIndex == 0 && b.transitionIndex == 1
    ensures RegistryNumbered(hash, [[], [], [a, b]], a.epoch)
  {
    var chain: Blocks := [[], [], [a, b]];
    assert chain[..2] == [] + [[]] + [[]];
    NoEvents(hash, [], a.epoch);
    NoEvents(hash, [] + [[]], a.epoch);
    TwoLogs(a, b, 2, hash(chain));
  }

  /** One log in each of the first two blocks. */
  lemma EarlyChainNumbered(hash: Blocks -> Hash, a: Log, b: Log)
    requires a.epoch == b.epoch && a.transitionIndex == 0 && b.transitionIndex == 1
    ensures RegistryNumbered(hash, [[a], [b]], a.epoch)
  {
    var chain: Blocks := [[a], [b]];
    assert chain[..1] == [[a]] && chain[..1][..0] == [];
    OneLog(a, 0, hash(chain[..1]));
    OneLog(b, 1, hash(chain));
    assert EpochEvents(hash, chain[..1], a.epoch) == EpochEvents(hash, [], a.epoch) + [Event(0, hash(chain[..1]), a)];
    assert EpochEvents(hash, chain, a.epoch) == EpochEvents(hash, chain[..1], a.epoch) + [Event(1, hash(chain), b)];
  }

  /** The log is the advance number `index` from `s` to `next`, with the configured pins. */
  ghost predicate Advances(cfg: Config, s: CortexState, index: int, log: Log, next: CortexState) {
    && log.epoch == cfg.epoch && log.transitionIndex == index && log.parent == cfg.crypto.merkle(s)
    && log.coreV == cfg.coreV && log.corpus == cfg.corpus && log.frontier == cfg.frontier
    && log.patchHash == cfg.crypto.patchHash(log.patchBytes)
    && cfg.crypto.applyPatch(s, log.patchBytes) == Some(next)
    && log.wordCount == cfg.crypto.wordCount(log.patchBytes) && log.newRoot == cfg.crypto.merkle(next)
  }

  lemma AdvanceApplies(cfg: Config, core: Core, ev: Event, next: CortexState)
    requires Advances(cfg, core.liveState, core.lastTransitionIndex + 1, ev.log, next)
    requires core.liveRoot == cfg.crypto.merkle(core.liveState)
    ensures ApplyChainEvent(cfg, core, ev) == Some(Commit(core, ev, next, ev.log.newRoot))
  {
  }

  /** A first advance applies, the second log of the batch throws: the advance stays, unscanned. */
  lemma FaultMidBatch(cfg: Config, core: Core, good: Event, bad: Event, r: TickReads)
    requires core.snapshots == [] && r.epochNow == Some(cfg.epoch) && r.head.Some? && r.batch == Some([good, bad])
    requires r.head.value - cfg.confirmationDepth > core.lastScannedBlock
    requires ApplyChainEvent(cfg, core, good).Some?
             && ApplyChainEvent(cfg, ApplyChainEvent(cfg, core, good).value, bad).None?
    ensures Tick(cfg, core, r) == Faulted(ApplyChainEvent(cfg, core, good).value, r)
  {
    var next := ApplyChainEvent(cfg, core, good).value;
    assert [good, bad][1..] == [bad];
    assert ApplyBatch(cfg, next, [bad]) == (next, false);
    assert ApplyBatch(cfg, core, [good, bad]) == (next, false);
  }

  /** The two chains of the run below and what the node serves from them: every log of the range. */
  function FirstReads(cfg: Config, first: Log, bad: Log, now: int): TickReads {
    var chain: Blocks := [[], [], [first, bad]];
    TickReads(Some(cfg.epoch), Some(2), chain, HashReads(true, None, i => None),
              Some([Event(2, cfg.blockHash(chain), first), Event(2, cfg.blockHash(chain), bad)]), None, now, false)
  }

  function SecondReads(cfg: Config, first: Log, second: Log, now: int): TickReads {
    var chain: Blocks := [[first], [second]];
    TickReads(Some(cfg.epoch), Some(1), chain, HashReads(true, None, i => None),
              Some([Event(1, cfg.blockHash(chain), second)]), None, now, false)
  }

  lemma BootsEmpty(cfg: Config) returns (core: Core)
    requires cfg.crypto.merkle(cfg.parentState) == cfg.parentRoot && cfg.confirmationDepth == 0
             && cfg.replayFromBlock == 0
    ensures Boot(cfg, true, 0, [], (cfg.parentRoot, 0)) == Some(core)
    ensures core == Launched(cfg).(signingEnabled := true)
  {
    core := Launched(cfg).(signingEnabled := true);
  }

  lemma FirstReadsHonest(cfg: Config, core: Core, first: Log, bad: Log, now: int)
    requires first.epoch == bad.epoch == cfg.epoch && first.transitionIndex == 0 && bad.transitionIndex == 1
    requires core.snapshots == [] && core.lastScannedBlock == 0
    ensures HonestReads(cfg, core, FirstReads(cfg, first, bad, now))
  {
    var chain: Blocks := [[], [], [first, bad]];
    LateChainNumbered(cfg.blockHash, first, bad);
    assert chain[..3] == chain;
  }

  lemma SecondReadsHonest(cfg: Config, core: Core, first: Log, second: Log, now: int)
    requires first.epoch == second.epoch == cfg.epoch && first.transitionIndex == 0 && second.transitionIndex == 1
    requires |core.snapshots| == 1 && core.snapshots[0].blockNumber == 2 && core.lastScannedBlock == 0
    ensures HonestReads(cfg, core, SecondReads(cfg, first, second, now))
    ensures OnChain(cfg.blockHash, [[first], [second]], Event(1, cfg.blockHash([[first], [second]]), second))
  {
    var chain: Blocks := [[first], [second]];
    EarlyChainNumbered(cfg.blockHash, first, second);
    assert chain[..2] == chain;
  }

  /** A run that gets there. After an empty boot, a tick applies the first advance from block 2 and
      throws on the next log; then the chain is rebuilt from the launch block up, shorter than
      block 2, with the same first advance in block 0. The next tick does not see that block 2 is
      gone and applies the second advance from block 1. */
  lemma OutOfSightHappens(cfg: Config, first: Log, second: Log, middle: CortexState, last: CortexState, now: int)
    requires Binding(cfg) && cfg.crypto.merkle(cfg.parentState) == cfg.parentRoot
    requires cfg.confirmationDepth == 0 && cfg.replayFromBlock == 0
    requires Advances(cfg, cfg.parentState, 0, first, middle) && Advances(cfg, middle, 1, second, last)
    ensures var bad := second.(newRoot := second.newRoot + 1);
            var booted := Boot(cfg, true, 0, [], (cfg.parentRoot, 0));
            && booted.Some? && HonestReads(cfg, booted.value, FirstReads(cfg, first, bad, now))
            && var core := Tick(cfg, booted.value, FirstReads(cfg, first, bad, now));
               var r := SecondReads(cfg, first, second, now);
               && HonestReads(cfg, core, r) && TickAccepted(cfg, core, r) == r.batch.value
               && !TailCanonical(cfg, Tick(cfg, core, r), r.chain)
  {
    var bad := second.(newRoot := second.newRoot + 1);
    var booted, core, applied := FirstTick(cfg, first, second, middle, now);
    var r := SecondReads(cfg, first, second, now);
    SecondReadsHonest(cfg, core, first, second, now);
    AdvanceApplies(cfg, core, r.batch.value[0], last);
    AcceptsOne(cfg, core, r, r.batch.value[0]);
    OutOfSightBreaksTail(cfg, core, applied, r);
  }

  lemma FirstTick(cfg: Config, first: Log, second: Log, middle: CortexState, now: int)
    returns (booted: Core, core: Core, applied: seq<Event>)
    requires Binding(cfg) && cfg.crypto.merkle(cfg.parentState) == cfg.parentRoot
    requires cfg.confirmationDepth == 0 && cfg.replayFromBlock == 0
    requires Advances(cfg, cfg.parentState, 0, first, middle) && second.epoch == cfg.epoch
             && second.transitionIndex == 1
    requires cfg.crypto.applyPatch(middle, second.patchBytes).Some?
    requires second.newRoot == cfg.crypto.merkle(cfg.crypto.applyPatch(middle, second.patchBytes).value)
    ensures var r0 := FirstReads(cfg, first, second.(newRoot := second.newRoot + 1), now);
            Boot(cfg, true, 0, [], (cfg.parentRoot, 0)) == Some(booted) && HonestReads(cfg, booted, r0)
              && core == Tick(cfg, booted, r0)
    ensures Recorded(cfg, core, applied)
    ensures |core.snapshots| == 1 && core.snapshots[0].blockNumber == 2 && core.lastScannedBlock == 0
    ensures core.liveState == middle && core.liveRoot == cfg.crypto.merkle(middle) && core.lastTransitionIndex == 0
  {
    var bad := second.(newRoot := second.newRoot + 1);
    var r0 := FirstReads(cfg, first, bad, now);
    booted := BootsEmpty(cfg);
    FirstReadsHonest(cfg, booted, first, bad, now);
    BootRecords(cfg, true, 0, [], (cfg.parentRoot, 0));
    applied := TickHistory(cfg, booted, [], r0);
    TickRecords(cfg, booted, [], r0);
    var good := r0.batch.value[0];
    AdvanceApplies(cfg, booted, good, middle);
    FaultMidBatch(cfg, booted, good, r0.batch.value[1], r0);
    core := Tick(cfg, booted, r0);
  }

  lemma AcceptsOne(cfg: Config, core: Core, r: TickReads, ev: Event)
    requires Proceeds(cfg, core, r) && r.batch == Some([ev]) && !NeedsReorg(core, r.hashes.newest)
    requires r.head.value - cfg.confirmationDepth > core.lastScannedBlock
    requires ev.log.epoch == cfg.epoch && ApplyChainEvent(cfg, core, ev).Some?
    ensures TickAccepted(cfg, core, r) == [ev]
  {
    assert [ev][1..] == [];
    assert Accepted(cfg, ApplyChainEvent(cfg, core, ev).value, []) == [];
  }
}
