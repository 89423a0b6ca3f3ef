/** The coordinator object: the source's mutable fields and loops, proved against the functions of
    Watcher and Signing. */
module CoordinatorCore {
  import opened Wrappers
  import opened Chain
  import W = Watcher
  import S = Signing

  class CoreTexCoordinatorCore {
    const cfg: W.Config

    var liveState: CortexState
    var liveRoot: Hash
    var lastTransitionIndex: int
    var stateByRoot: map<Hash, CortexState>
    var snapshots: seq<W.Snapshot>
    var lastScannedBlock: int
    var signingEnabled: bool
    var pending: map<Hash, W.PendingReceipt>
    var submitDedup: map<(Hash, Hash), int>
    var reservations: map<W.Miner, W.Reservation>
    var frozen: bool
    var freezeGeneration: nat

    ghost function View(): W.Core
      reads this
    {
      W.Core(liveState, liveRoot, lastTransitionIndex, stateByRoot, snapshots, lastScannedBlock,
             signingEnabled, pending, submitDedup, reservations, frozen, freezeGeneration)
    }

    constructor (cfg: W.Config)
      ensures this.cfg == cfg && View() == W.Launched(cfg)
    {
      this.cfg := cfg;
      liveState, liveRoot, lastTransitionIndex := cfg.parentState, cfg.parentRoot, -1;
      stateByRoot, snapshots, lastScannedBlock := map[cfg.parentRoot := cfg.parentState], [], 0;
      signingEnabled, pending, submitDedup, reservations := false, map[], map[], map[];
      frozen, freezeGeneration := false, 0;
    }

    // ── watcher ────────────────────────────────────────────────────────────────

    method MarkPending(log: Log)
      modifies this`pending
      ensures pending == W.MarkAll(old(pending), log)
    {
      ghost var was := pending;
      var todo: set<Hash> := pending.Keys;
      while exists k :: k in todo
        invariant todo <= was.Keys
        invariant pending.Keys == was.Keys
        invariant forall k :: k in was && k in todo ==> pending[k] == was[k]
        invariant forall k :: k in was && k !in todo ==> pending[k] == W.AfterEvent(was[k], log)
        decreases todo
      {
        var k :| k in todo;
        todo := todo - {k};
        pending := pending[k := W.AfterEvent(pending[k], log)];
      }
      assert forall k :: k in pending <==> k in was;
      assert forall k :: k in was ==> pending[k] == W.MarkAll(was, log)[k];
    }

    /** `false` is a throw: nothing was changed. */
    method ApplyChainEvent(ev: Event) returns (ok: bool)
      modifies this
      ensures ok == W.ApplyChainEvent(cfg, old(View()), ev).Some?
      ensures View() == if ok then W.ApplyChainEvent(cfg, old(View()), ev).value else old(View())
    {
      var log := ev.log;
      if log.epoch < cfg.epoch {
        return true;
      }
      if log.epoch != cfg.epoch || log.transitionIndex != lastTransitionIndex + 1 || log.parent != liveRoot {
        return false;
      }
      if log.coreV != cfg.coreV || log.corpus != cfg.corpus || log.frontier != cfg.frontier {
        return false;
      }
      if cfg.crypto.patchHash(log.patchBytes) != log.patchHash {
        return false;
      }
      var next := cfg.crypto.applyPatch(liveState, log.patchBytes);
      if next.None? || log.wordCount != cfg.crypto.wordCount(log.patchBytes) {
        return false;
      }
      var newRoot := cfg.crypto.merkle(next.value);
      if newRoot != log.newRoot {
        return false;
      }
      Commit(ev, next.value, newRoot);
      return true;
    }

    /** The writes of an accepted event, after all its checks. */
    method Commit(ev: Event, next: CortexState, newRoot: Hash)
      modifies this
      ensures View() == W.Commit(old(View()), ev, next, newRoot)
    {
      var log := ev.log;
      liveState, liveRoot, lastTransitionIndex := next, newRoot, log.transitionIndex;
      stateByRoot := stateByRoot[newRoot := next];
      snapshots := snapshots + [W.Snapshot(log.transitionIndex, ev.blockNumber, ev.blockHash,
                                           log.parent, newRoot, log.patchHash, next)];
      if |snapshots| > W.MAX_SNAPSHOTS {
        snapshots := snapshots[1..];
      }
      MarkPending(log);
    }

    /** The replay loop of boot and tick: it stops at the first throw and keeps what was applied. */
    method ApplyBatch(batch: seq<Event>) returns (ok: bool)
      modifies this
      ensures (View(), ok) == W.ApplyBatch(cfg, old(View()), batch)
    {
      var i := 0;
      while i < |batch|
        invariant i <= |batch|
        invariant W.ApplyBatch(cfg, old(View()), batch) == W.ApplyBatch(cfg, View(), batch[i..])
      {
        ok := ApplyChainEvent(batch[i]);
        if !ok {
          return;
        }
        i := i + 1;
      }
      return true;
    }

    /** The scan for the deepest still-canonical snapshot, from the newest down. */
    method FindSurviving(at: nat -> Option<Hash>) returns (n: nat)
      ensures n == W.Surviving(snapshots, at)
    {
      n := |snapshots|;
      while n > 0 && at(n - 1) != Some(snapshots[n - 1].blockHash)
        invariant n <= |snapshots|
        invariant W.Surviving(snapshots, at) == W.Surviving(snapshots[..n], at)
      {
        n := n - 1;
        assert snapshots[..n + 1][..n] == snapshots[..n];
      }
      assert snapshots[..|snapshots|] == snapshots;
    }

    method ReconcilePending()
      modifies this`pending
      ensures pending == W.Reconciled(old(pending), snapshots)
    {
      pending := map k | k in pending :: W.Reopened(pending[k]);
      var i := 0;
      while i < |snapshots|
        invariant i <= |snapshots|
        invariant pending == map k | k in old(pending) :: W.AfterSnapshots(W.Reopened(old(pending)[k]), snapshots[..i])
      {
        assert snapshots[..i + 1][..i] == snapshots[..i];
        pending := map k | k in pending :: W.AfterSnapshot(pending[k], snapshots[i]);
        i := i + 1;
      }
      assert snapshots[..i] == snapshots;
    }

    method AuditReceipts()
      modifies this`pending
      ensures pending == W.Audited(old(pending), stateByRoot)
    {
      ghost var was := pending;
      var todo: set<Hash> := pending.Keys;
      while exists k :: k in todo
        invariant todo <= was.Keys
        invariant pending.Keys == was.Keys
        invariant forall k :: k in was && k in todo ==> pending[k] == was[k]
        invariant forall k :: k in was && k !in todo ==> pending[k] == W.Audited(was, stateByRoot)[k]
        decreases todo
      {
        var k :| k in todo;
        todo := todo - {k};
        var p := pending[k];
        if p.state == W.Pending && p.parentRoot !in stateByRoot {
          pending := pending[k := p.(state := W.Stale)];
        }
      }
      assert forall k :: k in pending <==> k in was;
      assert forall k :: k in was ==> pending[k] == W.Audited(was, stateByRoot)[k];
    }

    method HandleReorg(at: nat -> Option<Hash>)
      modifies this
      ensures View() == W.HandleReorg(cfg, old(View()), at)
    {
      var n := FindSurviving(at);
      if n > 0 {
        var snap := snapshots[n - 1];
        snapshots := snapshots[..n];
        liveState, liveRoot, lastTransitionIndex := snap.state, snap.root, snap.transitionIndex;
        lastScannedBlock := snap.blockNumber;
      } else {
        snapshots := [];
        liveState, liveRoot, lastTransitionIndex := cfg.parentState, cfg.parentRoot, -1;
        lastScannedBlock := if cfg.replayFromBlock == 0 then 0 else cfg.replayFromBlock - 1;
      }
      assert View() == W.RolledBack(cfg, old(View()), n);
      ForgetRolledBack();
    }

    /** The tail of handleReorg: drop unknown roots, reconcile receipts, stop signing. */
    method ForgetRolledBack()
      modifies this
      ensures View() == W.AfterRollback(cfg, old(View()))
    {
      var keep := W.KeptRoots(cfg, snapshots);
      stateByRoot := map r | r in stateByRoot && r in keep :: stateByRoot[r];
      ReconcilePending();
      AuditReceipts();
      signingEnabled := false;
    }

    /** Drops the pending receipts whose window has closed; returns the dedup keys they release. */
    method SweepPending(now: int) returns (released: set<(Hash, Hash)>)
      modifies this`pending
      ensures pending == W.StillOpen(old(pending), now) && released == W.Released(old(pending), now)
    {
      ghost var was := pending;
      released := {};
      var todo: set<Hash> := pending.Keys;
      while exists k :: k in todo
        invariant todo <= was.Keys
        invariant pending.Keys == set k | k in was && (k in todo || !W.Expiring(was[k], now))
        invariant forall k :: k in pending ==> pending[k] == was[k]
        invariant released == set k | k in was && k !in todo && W.Expiring(was[k], now)
                              :: (was[k].parentRoot, was[k].originalPatchHash)
        decreases todo
      {
        var k :| k in todo;
        todo := todo - {k};
        if pending[k].state == W.Pending && pending[k].expiresAt <= now {
          released := released + {(pending[k].parentRoot, pending[k].originalPatchHash)};
          pending := pending - {k};
        }
      }
      ghost var open := W.StillOpen(was, now);
      assert forall k :: k in pending <==> k in open;
      assert forall k :: k in open ==> pending[k] == open[k];
      assert pending == open;
    }

    method GcPending(now: int)
      modifies this`pending, this`submitDedup, this`reservations
      ensures View() == W.GcPending(old(View()), now)
    {
      var released := SweepPending(now);
      submitDedup := map d | d in submitDedup && d !in released && submitDedup[d] > now :: submitDedup[d];
      reservations := map m | m in reservations && reservations[m].expiresAt > now :: reservations[m];
    }

    method Tick(r: W.TickReads)
      modifies this
      ensures View() == if old(frozen) then old(View()) else W.Tick(cfg, old(View()), r)
    {
      if frozen {
        return;
      }
      if r.epochNow.None? {
        signingEnabled := signingEnabled && r.transientInGrace;
        return;
      }
      if r.epochNow.value != cfg.epoch {
        signingEnabled := false;
        GcPending(r.now);
        return;
      }
      if r.head.None? || (|snapshots| > 0 && !r.hashes.readable) {
        signingEnabled := signingEnabled && r.transientInGrace;
        return;
      }
      if |snapshots| > 0 {
        var newest := snapshots[|snapshots| - 1];
        var canonical := r.hashes.newest;
        if canonical.Some? && canonical.value != newest.blockHash {
          HandleReorg(r.hashes.at);
        }
      }
      assert View() == W.AfterReorgCheck(cfg, old(View()), r.hashes);
      Settle(r, r.head.value);
    }

    method Settle(r: W.TickReads, head: nat)
      modifies this
      ensures View() == W.Settled(cfg, old(View()), head, r)
    {
      var ok := Scan(r, head);
      if !ok || r.registry.None? {
        signingEnabled := signingEnabled && r.transientInGrace;
        return;
      }
      CheckParity(r.registry.value);
      GcPending(r.now);
    }

    /** The confirmed part of the chain since the last scan. */
    method Scan(r: W.TickReads, head: nat) returns (ok: bool)
      modifies this
      ensures (View(), ok) == W.Scanned(cfg, old(View()), head, r)
    {
      ok := true;
      var safeHead := head - cfg.confirmationDepth;
      if safeHead > lastScannedBlock {
        if r.batch.None? {
          ok := false;
        } else {
          ok := ApplyBatch(r.batch.value);
          if ok {
            lastScannedBlock := safeHead;
          }
        }
      }
    }

    method CheckParity(registry: (Hash, nat))
      modifies this
      ensures View() == W.ParityChecked(old(View()), registry)
    {
      if lastTransitionIndex + 1 == registry.1 && registry.0 == liveRoot {
        AuditReceipts();
        signingEnabled := true;
      } else {
        signingEnabled := false;
      }
    }

    method Boot(wiringOk: bool, head: nat, batch: seq<Event>, registry: (Hash, nat)) returns (ok: bool)
      requires View() == W.Launched(cfg)
      modifies this
      ensures ok == W.Boot(cfg, wiringOk, head, batch, registry).Some?
      ensures ok ==> View() == W.Boot(cfg, wiringOk, head, batch, registry).value
    {
      if !wiringOk || cfg.crypto.merkle(cfg.parentState) != cfg.parentRoot {
        return false;
      }
      ok := ApplyBatch(batch);
      if !ok {
        return false;
      }
      lastScannedBlock := head - cfg.confirmationDepth;
      if lastScannedBlock < cfg.replayFromBlock {
        lastScannedBlock := cfg.replayFromBlock;
      }
      signingEnabled := lastTransitionIndex + 1 == registry.1 && registry.0 == liveRoot;
      return signingEnabled || lastTransitionIndex + 1 < registry.1;
    }

    // ── submits ────────────────────────────────────────────────────────────────

    /** The first part of prepareSubmitEvaluation; `false` rejects because the core is frozen. */
    method PrepareBegin(now: int) returns (ok: bool)
      modifies this
      ensures View() == W.GcPending(old(View()), now) && ok == !frozen
    {
      GcPending(now);
      return !frozen;
    }

    method PrepareEnd(now: int, s: S.Submit, epochNow: Option<nat>, otherwiseOk: bool) returns (lane: S.Lane)
      modifies this`signingEnabled
      ensures View() == S.PrepareHealth(cfg, old(View()), epochNow)
      ensures lane == S.Prepare(cfg, View(), now, s, epochNow, otherwiseOk)
    {
      if epochNow != Some(cfg.epoch) {
        signingEnabled := false;
        return S.Idle;
      }
      if !signingEnabled || !otherwiseOk || s.parentStateRoot != liveRoot {
        return S.Idle;
      }
      if cfg.crypto.wireParent(s.patchBytes) != s.parentStateRoot {
        return S.Idle;
      }
      if cfg.crypto.applyPatch(liveState, s.patchBytes).None? {
        return S.Idle;
      }
      var original := cfg.crypto.patchHash(cfg.crypto.rescore(s.patchBytes, 0));
      if (s.parentStateRoot, original) in submitDedup {
        return S.Idle;
      }
      return S.Scoring(S.Prepared(now, s, original, liveRoot, liveState, freezeGeneration));
    }

    method FinishBegin(p: S.Prepared, c: S.Counters, result: S.EvalResult, epochNow: Option<nat>) returns (lane: S.Lane)
      modifies this
      ensures View() == S.BeginFinishCore(cfg, old(View()), p, c, result, epochNow)
      ensures lane == S.BeginFinish(cfg, old(View()), p, c, result, epochNow)
    {
      lane := S.Idle;
      var m := p.submit.miner;
      if result.Reject? || (p.submit.parentStateRoot, p.originalPatchHash) in submitDedup {
        return;
      }
      if frozen || freezeGeneration != p.freezeGeneration || liveRoot != p.rootAtEvaluation {
        return;
      }
      if epochNow.None? {
        signingEnabled := false;
        return;
      }
      if epochNow.value != cfg.epoch {
        return;
      }
      var solveIndex, prevReceiptHash, chained, gap := c.nextIndex, c.lastReceiptHash, false, 0;
      if m in reservations {
        var reservation := reservations[m];
        if c.nextIndex >= reservation.nextIndex {
          reservations := map x | x in reservations && x != m :: reservations[x];
        } else if reservation.lastReceiptHash.Some? {
          solveIndex, prevReceiptHash, chained := reservation.nextIndex, reservation.lastReceiptHash.value, true;
          gap := reservation.nextIndex - c.nextIndex;
        } else {
          return;
        }
      }
      if result.ScreenerPass? && c.screenersThisEpoch + gap >= cfg.perMinerScreenerCap {
        return;
      }
      if !result.passes {
        return;
      }
      if result.ScreenerPass? {
        return S.Drafted(S.Draft(p, true, solveIndex, prevReceiptHash, chained,
                                 cfg.crypto.rescore(p.submit.patchBytes, 0), p.originalPatchHash,
                                 p.submit.parentStateRoot, freezeGeneration));
      }
      var bytes := cfg.crypto.rescore(p.submit.patchBytes, result.scoreDelta);
      var next := cfg.crypto.applyPatch(p.parentStateSnapshot, bytes);
      if next.Some? {
        return S.Drafted(S.Draft(p, false, solveIndex, prevReceiptHash, chained, bytes,
                                 cfg.crypto.patchHash(bytes), cfg.crypto.merkle(next.value), freezeGeneration));
      }
    }

    method FinishEnd(d: S.Draft, hash: Option<Hash>) returns (receipt: S.Receipt)
      modifies this
      ensures View() == S.Record(cfg, old(View()), d, hash) && receipt == S.Signed(cfg, d, hash)
    {
      var s, expiresAt := d.prepared.submit, d.prepared.now + cfg.receiptTtlSec;
      reservations := reservations[s.miner := W.Reservation(d.solveIndex + 1, hash, expiresAt)];
      submitDedup := submitDedup[(s.parentStateRoot, d.prepared.originalPatchHash) := expiresAt];
      if !d.screener {
        pending := pending[d.signedPatchHash :=
          W.PendingReceipt(d.prepared.originalPatchHash, d.signedPatchHash, s.parentStateRoot,
                           d.newStateRoot, d.compactPatchBytes, s.miner, expiresAt, W.Pending)];
      }
      return S.Signed(cfg, d, hash);
    }

    method Freeze()
      modifies this`frozen, this`freezeGeneration
      ensures frozen && freezeGeneration == old(freezeGeneration) + 1
    {
      frozen := true;
      freezeGeneration := freezeGeneration + 1;
    }

    method Unfreeze()
      modifies this`frozen
      ensures !frozen
    {
      frozen := false;
    }
  }
}
