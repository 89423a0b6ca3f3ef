/** What the marks on signed receipts mean: pending, confirmed and stale, over whole runs. */
module Receipts {
  import opened Wrappers
  import opened Chain
  import opened Watcher
  import opened Signing
  import Progress

  // ── the invariant ────────────────────────────────────────────────────────────

  /** The snapshot of the epoch's first advance has left the window. */
  predicate FirstEvicted(snapshots: seq<Snapshot>) {
    |snapshots| > 0 && snapshots[0].transitionIndex > 0
  }

  /** Where a pending receipt may be built on: the live root, or, once a rollback has reopened receipts,
      the launch root when the first advance is no longer in the window. */
  predicate OpenRoot(cfg: Config, reopened: bool, root: Hash, liveRoot: Hash, snapshots: seq<Snapshot>) {
    root == liveRoot || (reopened && root == cfg.parentRoot && FirstEvicted(snapshots))
  }

  ghost predicate PendingOpen(cfg: Config, reopened: bool, pending: map<Hash, PendingReceipt>, liveRoot: Hash,
                              snapshots: seq<Snapshot>) {
    forall k :: k in pending && pending[k].state == Pending ==>
      OpenRoot(cfg, reopened, pending[k].parentRoot, liveRoot, snapshots)
  }

  /** Another patch was applied to the receipt's parent. */
  ghost predicate Displaced(p: PendingReceipt, applied: seq<Event>) {
    exists i :: 0 <= i < |applied| && applied[i].log.parent == p.parentRoot
      && applied[i].log.patchHash != p.signedPatchHash
  }

  ghost predicate StaleDisplaced(pending: map<Hash, PendingReceipt>, applied: seq<Event>) {
    forall k :: k in pending && pending[k].state == Stale ==> Displaced(pending[k], applied)
  }

  /** The states of the launch root, of the live root and of every snapshot are at hand. */
  ghost predicate StatesKept(cfg: Config, core: Core) {
    && cfg.parentRoot in core.stateByRoot && core.liveRoot in core.stateByRoot
    && forall j :: 0 <= j < |core.snapshots| ==> core.snapshots[j].root in core.stateByRoot
  }

  ghost predicate Marked(cfg: Config, reopened: bool, core: Core, applied: seq<Event>) {
    && StatesKept(cfg, core) && PendingOpen(cfg, reopened, core.pending, core.liveRoot, core.snapshots)
    && (!reopened ==> StaleDisplaced(core.pending, applied))
  }

  // ── one event, one batch ─────────────────────────────────────────────────────

  lemma EvictedIff(cfg: Config, core: Core, applied: seq<Event>)
    requires Replays(cfg, core, applied)
    ensures FirstEvicted(core.snapshots) <==> |applied| > |core.snapshots|
  {
    if |core.snapshots| > 0 {
      assert SnapshotOf(cfg, core.snapshots[0], applied, |applied| - |core.snapshots|);
    }
  }

  lemma EvictionStays(cfg: Config, core: Core, next: Core, applied: seq<Event>, ev: Event)
    requires Replays(cfg, core, applied) && Replays(cfg, next, applied + [ev])
    requires |next.snapshots| <= |core.snapshots| + 1 && FirstEvicted(core.snapshots)
    ensures FirstEvicted(next.snapshots)
  {
    EvictedIff(cfg, core, applied);
    EvictedIff(cfg, next, applied + [ev]);
  }

  lemma DisplacedStays(p: PendingReceipt, applied: seq<Event>, later: seq<Event>)
    requires applied <= later && Displaced(p, applied)
    ensures Displaced(p, later)
  {
    var i :| 0 <= i < |applied| && applied[i].log.parent == p.parentRoot
      && applied[i].log.patchHash != p.signedPatchHash;
    assert later[i] == applied[i];
  }

  lemma MarkingDisplaces(pending: map<Hash, PendingReceipt>, applied: seq<Event>, ev: Event)
    requires StaleDisplaced(pending, applied)
    ensures StaleDisplaced(MarkAll(pending, ev.log), applied + [ev])
  {
    var grown, after := applied + [ev], MarkAll(pending, ev.log);
    forall k | k in after && after[k].state == Stale
      ensures Displaced(after[k], grown)
    {
      if pending[k].state == Stale {
        DisplacedStays(pending[k], applied, grown);
      } else {
        assert grown[|applied|] == ev;
      }
    }
  }

  lemma CommitMarks(cfg: Config, reopened: bool, core: Core, applied: seq<Event>, ev: Event)
    requires Replays(cfg, core, applied) && Marked(cfg, reopened, core, applied)
    requires ev.log.epoch == cfg.epoch && ApplyChainEvent(cfg, core, ev).Some?
    ensures Marked(cfg, reopened, ApplyChainEvent(cfg, core, ev).value, applied + [ev])
  {
    var next := ApplyChainEvent(cfg, core, ev).value;
    CommitReplays(cfg, core, applied, ev);
    if FirstEvicted(core.snapshots) {
      EvictionStays(cfg, core, next, applied, ev);
    }
    if !reopened {
      MarkingDisplaces(core.pending, applied, ev);
    }
  }

  lemma {:induction false} BatchMarks(cfg: Config, reopened: bool, core: Core, applied: seq<Event>, batch: seq<Event>)
    requires Replays(cfg, core, applied) && Marked(cfg, reopened, core, applied)
    ensures Marked(cfg, reopened, ApplyBatch(cfg, core, batch).0, applied + Accepted(cfg, core, batch))
    decreases |batch|
  {
    if batch == [] || ApplyChainEvent(cfg, core, batch[0]).None? {
      assert applied + [] == applied;
    } else {
      var next := ApplyChainEvent(cfg, core, batch[0]).value;
      AcceptedStep(cfg, core, applied, batch);
      if batch[0].log.epoch == cfg.epoch {
        CommitMarks(cfg, reopened, core, applied, batch[0]);
        CommitReplays(cfg, core, applied, batch[0]);
        BatchMarks(cfg, reopened, next, applied + [batch[0]], batch[1..]);
      } else {
        BatchMarks(cfg, reopened, next, applied, batch[1..]);
      }
    }
  }

  // ── rollback, exactly ────────────────────────────────────────────────────────

  /** The first of the snapshots that starts from the root. */
  ghost predicate FirstOn(snapshots: seq<Snapshot>, root: Hash, j: int) {
    && 0 <= j < |snapshots| && snapshots[j].parent == root
    && forall i :: 0 <= i < j ==> snapshots[i].parent != root
  }

  ghost predicate Spent(snapshots: seq<Snapshot>, root: Hash) {
    exists j :: 0 <= j < |snapshots| && snapshots[j].parent == root
  }

  lemma {:induction false} MarkedByFirst(p: PendingReceipt, snapshots: seq<Snapshot>)
    requires p.state == Pending
    ensures var q := AfterSnapshots(p, snapshots);
            && q == p.(state := q.state)
            && (q.state == Pending <==> !Spent(snapshots, p.parentRoot))
            && (forall j :: FirstOn(snapshots, p.parentRoot, j) ==>
                  q.state == if snapshots[j].patchHash == p.signedPatchHash then Confirmed else Stale)
  {
    if snapshots != [] {
      var init, last := snapshots[..|snapshots| - 1], snapshots[|snapshots| - 1];
      MarkedByFirst(p, init);
      forall j | FirstOn(snapshots, p.parentRoot, j)
        ensures j < |init| ==> FirstOn(init, p.parentRoot, j)
        ensures j == |init| ==> !Spent(init, p.parentRoot)
      {
      }
      if Spent(init, p.parentRoot) {
        var j :| 0 <= j < |init| && init[j].parent == p.parentRoot;
        assert snapshots[j].parent == p.parentRoot;
      }
      assert last.parent == p.parentRoot ==> Spent(snapshots, p.parentRoot);
    }
  }

  /** Snapshots link from root to root. */
  ghost predicate Chained(cfg: Config, core: Core) {
    && (forall j :: 0 < j < |core.snapshots| ==> core.snapshots[j].parent == core.snapshots[j - 1].root)
    && (|core.snapshots| > 0 ==> core.liveRoot == core.snapshots[|core.snapshots| - 1].root)
    && (core.snapshots == [] ==> core.liveRoot == cfg.parentRoot)
    && (|core.snapshots| > 0 && !FirstEvicted(core.snapshots) ==> core.snapshots[0].parent == cfg.parentRoot)
  }

  lemma ReplayChains(cfg: Config, core: Core, applied: seq<Event>)
    requires Replays(cfg, core, applied) && cfg.crypto.merkle(cfg.parentState) == cfg.parentRoot
    ensures Chained(cfg, core)
  {
    var d := |applied| - |core.snapshots|;
    forall j | 0 < j < |core.snapshots|
      ensures core.snapshots[j].parent == core.snapshots[j - 1].root
    {
      assert SnapshotOf(cfg, core.snapshots[j], applied, d + j);
      assert SnapshotOf(cfg, core.snapshots[j - 1], applied, d + j - 1);
      assert Linked(cfg, applied, d + j) && Linked(cfg, applied, d + j - 1);
    }
    if |core.snapshots| > 0 {
      EvictedIff(cfg, core, applied);
      assert SnapshotOf(cfg, core.snapshots[0], applied, d);
      assert SnapshotOf(cfg, core.snapshots[|core.snapshots| - 1], applied, |applied| - 1);
      assert Linked(cfg, applied, d) && Linked(cfg, applied, |applied| - 1);
      assert applied[..|applied|] == applied;
      assert d == 0 ==> applied[..0] == [];
    } else {
      assert applied == [];
    }
  }

  /** After a rollback every receipt is marked anew from what survived: by the first surviving advance on its
      parent if there is one; otherwise it is pending exactly if its parent is the live root or the launch
      root, and stale if not. */
  lemma RollbackMarks(cfg: Config, core: Core, applied: seq<Event>, n: nat, k: Hash)
    requires Replays(cfg, core, applied) && cfg.crypto.merkle(cfg.parentState) == cfg.parentRoot
    requires StatesKept(cfg, core) && n <= |core.snapshots| && k in core.pending && core.pending[k].state != Expired
    ensures var after := AfterRollback(cfg, RolledBack(cfg, core, n));
            var p, kept := core.pending[k], core.snapshots[..n];
            && k in after.pending && after.pending[k] == p.(state := after.pending[k].state)
            && (forall j :: FirstOn(kept, p.parentRoot, j) ==>
                  after.pending[k].state == if kept[j].patchHash == p.signedPatchHash then Confirmed else Stale)
            && (!Spent(kept, p.parentRoot) ==>
                  after.pending[k].state ==
                  if p.parentRoot == after.liveRoot || p.parentRoot == cfg.parentRoot then Pending else Stale)
  {
    var p, kept := core.pending[k], core.snapshots[..n];
    RollbackEntry(cfg, core, n, k);
    MarkedByFirst(Reopened(p), kept);
    if !Spent(kept, p.parentRoot) {
      ReplayChains(cfg, core, applied);
      OnlyTheLastIsUnspent(cfg, core, n, p.parentRoot);
    }
  }

  lemma RollbackEntry(cfg: Config, core: Core, n: nat, k: Hash)
    requires n <= |core.snapshots| && k in core.pending
    ensures var after := AfterRollback(cfg, RolledBack(cfg, core, n));
            var q := AfterSnapshots(Reopened(core.pending[k]), core.snapshots[..n]);
            var known := q.parentRoot in core.stateByRoot && q.parentRoot in KeptRoots(cfg, core.snapshots[..n]);
            k in after.pending && after.pending[k] == if q.state == Pending && !known then q.(state := Stale) else q
  {
    assert RolledBack(cfg, core, n).snapshots == core.snapshots[..n];
  }

  /** Among the roots a rollback keeps, only the new live root and the launch root are nobody's parent. */
  lemma OnlyTheLastIsUnspent(cfg: Config, core: Core, n: nat, root: Hash)
    requires Chained(cfg, core) && StatesKept(cfg, core) && n <= |core.snapshots|
    requires !Spent(core.snapshots[..n], root)
    ensures var back := RolledBack(cfg, core, n);
            root in KeptRoots(cfg, back.snapshots) && root in core.stateByRoot
            <==> root == back.liveRoot || root == cfg.parentRoot
  {
    var kept := core.snapshots[..n];
    if root in KeptRoots(cfg, kept) && root != cfg.parentRoot {
      var j :| 0 <= j < n && kept[j].root == root;
      if j + 1 < n {
        RootsInsideAreSpent(cfg, core, n, j);
        assert false;
      }
    }
    if n > 0 {
      assert kept[n - 1].root in KeptRoots(cfg, kept);
    }
  }

  lemma RootsInsideAreSpent(cfg: Config, core: Core, n: nat, j: nat)
    requires Chained(cfg, core) && j + 1 < n <= |core.snapshots|
    ensures Spent(core.snapshots[..n], core.snapshots[j].root)
  {
    assert core.snapshots[..n][j + 1].parent == core.snapshots[j].root;
  }

  lemma RollbackKeepsStates(cfg: Config, core: Core, n: nat)
    requires StatesKept(cfg, core) && n <= |core.snapshots|
    ensures StatesKept(cfg, AfterRollback(cfg, RolledBack(cfg, core, n)))
  {
    var kept := core.snapshots[..n];
    assert forall j :: 0 <= j < n ==> kept[j] == core.snapshots[j] && kept[j].root in KeptRoots(cfg, kept);
  }

  lemma ReorgMarks(cfg: Config, core: Core, applied: seq<Event>, n: nat)
    requires Replays(cfg, core, applied) && cfg.crypto.merkle(cfg.parentState) == cfg.parentRoot
    requires StatesKept(cfg, core) && n <= |core.snapshots|
    ensures Marked(cfg, true, AfterRollback(cfg, RolledBack(cfg, core, n)), KeptHistory(core.snapshots, applied, n))
  {
    var after := AfterRollback(cfg, RolledBack(cfg, core, n));
    RollbackKeepsStates(cfg, core, n);
    forall k | k in after.pending && after.pending[k].state == Pending
      ensures OpenRoot(cfg, true, after.pending[k].parentRoot, after.liveRoot, after.snapshots)
    {
      PendingAfterRollback(cfg, core, applied, n, k);
    }
  }

  lemma PendingAfterRollback(cfg: Config, core: Core, applied: seq<Event>, n: nat, k: Hash)
    requires Replays(cfg, core, applied) && cfg.crypto.merkle(cfg.parentState) == cfg.parentRoot
    requires StatesKept(cfg, core) && n <= |core.snapshots|
    requires var after := AfterRollback(cfg, RolledBack(cfg, core, n));
             k in after.pending && after.pending[k].state == Pending
    ensures var after := AfterRollback(cfg, RolledBack(cfg, core, n));
            OpenRoot(cfg, true, after.pending[k].parentRoot, after.liveRoot, after.snapshots)
  {
    var p, kept := core.pending[k], core.snapshots[..n];
    RollbackEntry(cfg, core, n, k);
    if p.state == Expired {
      ExpiredStays(p, kept);
    } else {
      MarkedByFirst(Reopened(p), kept);
      ReplayChains(cfg, core, applied);
      UnspentIsOpen(cfg, core, n, p.parentRoot);
    }
  }

  lemma UnspentIsOpen(cfg: Config, core: Core, n: nat, root: Hash)
    requires Chained(cfg, core) && StatesKept(cfg, core) && n <= |core.snapshots|
    requires !Spent(core.snapshots[..n], root) && root in KeptRoots(cfg, core.snapshots[..n])
    requires root in core.stateByRoot
    ensures var back := RolledBack(cfg, core, n); OpenRoot(cfg, true, root, back.liveRoot, back.snapshots)
  {
    OnlyTheLastIsUnspent(cfg, core, n, root);
    if n > 0 {
      assert core.snapshots[..n][0] == core.snapshots[0];
    }
  }

  lemma {:induction false} ExpiredStays(p: PendingReceipt, snapshots: seq<Snapshot>)
    requires p.state == Expired
    ensures AfterSnapshots(p, snapshots) == p
  {
    if snapshots != [] {
      ExpiredStays(p, snapshots[..|snapshots| - 1]);
    }
  }

  // ── ticks and runs ───────────────────────────────────────────────────────────

  lemma ScanMarks(cfg: Config, reopened: bool, core: Core, applied: seq<Event>, head: nat, r: TickReads)
    requires Replays(cfg, core, applied) && Marked(cfg, reopened, core, applied)
    ensures Marked(cfg, reopened, Scanned(cfg, core, head, r).0, applied + ScanAccepted(cfg, core, head, r))
  {
    if head - cfg.confirmationDepth > core.lastScannedBlock && r.batch.Some? {
      BatchMarks(cfg, reopened, core, applied, r.batch.value);
    } else {
      assert applied + [] == applied;
    }
  }

  /** Sweeping drops receipts; auditing finds nothing to mark without a rollback. */
  lemma ParityMarks(cfg: Config, reopened: bool, core: Core, applied: seq<Event>, registry: (Hash, nat), now: int)
    requires Marked(cfg, reopened, core, applied)
    ensures Marked(cfg, reopened, GcPending(ParityChecked(core, registry), now), applied)
  {
  }

  lemma SettleMarks(cfg: Config, reopened: bool, core: Core, applied: seq<Event>, head: nat, r: TickReads)
    requires Replays(cfg, core, applied) && Marked(cfg, reopened, core, applied)
    ensures Marked(cfg, reopened, Settled(cfg, core, head, r), applied + ScanAccepted(cfg, core, head, r))
  {
    var later := applied + ScanAccepted(cfg, core, head, r);
    var (scanned, ok) := Scanned(cfg, core, head, r);
    ScanMarks(cfg, reopened, core, applied, head, r);
    if ok && r.registry.Some? {
      ParityMarks(cfg, reopened, scanned, later, r.registry.value, r.now);
    }
  }

  /** The tick rolls back. */
  predicate RollsBack(cfg: Config, core: Core, r: TickReads) {
    Proceeds(cfg, core, r) && NeedsReorg(core, r.hashes.newest)
  }

  lemma TickMarks(cfg: Config, reopened: bool, core: Core, applied: seq<Event>, r: TickReads)
    requires Replays(cfg, core, applied) && cfg.crypto.merkle(cfg.parentState) == cfg.parentRoot
    requires Marked(cfg, reopened, core, applied)
    ensures Marked(cfg, reopened || RollsBack(cfg, core, r), Tick(cfg, core, r), TickHistory(cfg, core, applied, r))
  {
    if Proceeds(cfg, core, r) {
      Progress.TickAfterCheck(cfg, core, applied, r);
      var checked, kept := AfterReorgCheck(cfg, core, r.hashes), ReorgHistory(core, applied, r.hashes);
      ReorgCheckMarks(cfg, reopened, core, applied, r.hashes);
      SettleMarks(cfg, reopened || RollsBack(cfg, core, r), checked, kept, r.head.value, r);
    } else if r.epochNow.Some? && r.epochNow.value != cfg.epoch {
      GcMarks(cfg, reopened, core.(signingEnabled := false), applied, r.now);
    }
  }

  lemma ReorgCheckMarks(cfg: Config, reopened: bool, core: Core, applied: seq<Event>, hashes: HashReads)
    requires Replays(cfg, core, applied) && cfg.crypto.merkle(cfg.parentState) == cfg.parentRoot
    requires Marked(cfg, reopened, core, applied)
    ensures var checked, kept := AfterReorgCheck(cfg, core, hashes), ReorgHistory(core, applied, hashes);
            Replays(cfg, checked, kept) && Marked(cfg, reopened || NeedsReorg(core, hashes.newest), checked, kept)
  {
    if NeedsReorg(core, hashes.newest) {
      var n := Surviving(core.snapshots, hashes.at);
      ReorgMarks(cfg, core, applied, n);
      RollbackReplays(cfg, core, applied, n);
    }
  }

  predicate StepRollsBack(cfg: Config, w: World, step: Step) {
    step.TickEnd? && w.ticking && step.r.now == w.clock && RollsBack(cfg, w.core, step.r)
  }

  /** Some tick of the run rolls back. */
  predicate RunRollsBack(cfg: Config, w: World, steps: seq<Step>) {
    steps != [] &&
    (RunRollsBack(cfg, w, steps[..|steps| - 1])
     || StepRollsBack(cfg, Run(cfg, w, steps[..|steps| - 1]), steps[|steps| - 1]))
  }

  lemma RecordMarks(cfg: Config, reopened: bool, core: Core, applied: seq<Event>, d: Draft, hash: Option<Hash>)
    requires Marked(cfg, reopened, core, applied) && d.prepared.submit.parentStateRoot == core.liveRoot
    ensures Marked(cfg, reopened, Record(cfg, core, d, hash), applied)
  {
  }

  lemma GcMarks(cfg: Config, reopened: bool, core: Core, applied: seq<Event>, now: int)
    requires Marked(cfg, reopened, core, applied)
    ensures Marked(cfg, reopened, GcPending(core, now), applied)
  {
  }

  lemma StepMarks(cfg: Config, reopened: bool, w: World, applied: seq<Event>, step: Step)
    requires Replays(cfg, w.core, applied) && cfg.crypto.merkle(cfg.parentState) == cfg.parentRoot
    requires Marked(cfg, reopened, w.core, applied) && Exclusive(w)
    ensures Marked(cfg, reopened || StepRollsBack(cfg, w, step), Next(cfg, w, step).core,
                   StepHistory(cfg, w, applied, step))
  {
    match step
    case TickEnd(r) => TickMarks(cfg, reopened, w.core, applied, r);
    case PrepareBegin(_) => GcMarks(cfg, reopened, w.core, applied, w.clock);
    case FinishEnd(reply) =>
      if w.lane.Drafted? && reply.Some? {
        RecordMarks(cfg, reopened, w.core, applied, w.lane.draft, reply.value);
      }
    case _ =>
  }

  lemma {:induction false} RunMarks(cfg: Config, w: World, applied: seq<Event>, steps: seq<Step>)
    requires Binding(cfg) && cfg.crypto.merkle(cfg.parentState) == cfg.parentRoot
    requires Recorded(cfg, w.core, applied) && LaneSound(cfg, w) && Exclusive(w)
    requires Marked(cfg, false, w.core, applied)
    ensures Marked(cfg, RunRollsBack(cfg, w, steps), Run(cfg, w, steps).core, RunHistory(cfg, w, applied, steps))
  {
    if steps != [] {
      var n := |steps| - 1;
      RunMarks(cfg, w, applied, steps[..n]);
      RunRecords(cfg, w, applied, steps[..n]);
      RunExclusive(cfg, w, steps[..n]);
      StepMarks(cfg, RunRollsBack(cfg, w, steps[..n]), Run(cfg, w, steps[..n]),
                RunHistory(cfg, w, applied, steps[..n]), steps[n]);
    }
  }

  lemma BootMarks(cfg: Config, wiringOk: bool, head: nat, batch: seq<Event>, registry: (Hash, nat))
    requires Boot(cfg, wiringOk, head, batch, registry).Some?
    ensures Marked(cfg, false, Boot(cfg, wiringOk, head, batch, registry).value, BootHistory(cfg, batch))
  {
    BatchMarks(cfg, false, Launched(cfg), [], batch);
    assert [] + Accepted(cfg, Launched(cfg), batch) == Accepted(cfg, Launched(cfg), batch);
  }

  /** After every run from boot a pending receipt is built on the live root; the one exception is a receipt
      on the launch root, after a rollback, with the first advance no longer in the window. Without a rollback
      there is none, and a stale receipt had another patch applied to its parent. */
  lemma PendingIsOnLiveRoot(
    cfg: Config, wiringOk: bool, head: nat, batch: seq<Event>, registry: (Hash, nat),
    clock: int, onChain: Miner -> Counters, steps: seq<Step>)
    requires Binding(cfg) && Boot(cfg, wiringOk, head, batch, registry).Some?
    ensures var w := Booted(cfg, wiringOk, head, batch, registry, clock, onChain);
            var (core, history) := (Run(cfg, w, steps).core, RunHistory(cfg, w, BootHistory(cfg, batch), steps));
            forall k :: k in core.pending ==>
              && (core.pending[k].state == Pending ==>
                    core.pending[k].parentRoot == core.liveRoot
                    || (RunRollsBack(cfg, w, steps) && core.pending[k].parentRoot == cfg.parentRoot
                        && FirstEvicted(core.snapshots)))
              && (core.pending[k].state == Stale && !RunRollsBack(cfg, w, steps) ==>
                    Displaced(core.pending[k], history))
  {
    var w := Booted(cfg, wiringOk, head, batch, registry, clock, onChain);
    BootRecords(cfg, wiringOk, head, batch, registry);
    BootMarks(cfg, wiringOk, head, batch, registry);
    RunMarks(cfg, w, BootHistory(cfg, batch), steps);
  }

  // ── whose advances are followed ──────────────────────────────────────────────

  lemma {:induction false} RunPinned(cfg: Config, w: World, applied: seq<Event>, steps: seq<Step>)
    requires Progress.AllPinned(cfg, applied)
    ensures Progress.AllPinned(cfg, RunHistory(cfg, w, applied, steps))
  {
    if steps != [] {
      var n := |steps| - 1;
      RunPinned(cfg, w, applied, steps[..n]);
      if steps[n].TickEnd? {
        Progress.TickPinned(cfg, Run(cfg, w, steps[..n]).core, RunHistory(cfg, w, applied, steps[..n]), steps[n].r);
      }
    }
  }

  /** After every run from boot, every advance of the history has the configured core version, corpus and
      frontier roots, and the word count of its patch: none of another configuration is ever followed. */
  lemma EveryAdvanceIsPinned(cfg: Config, wiringOk: bool, head: nat, batch: seq<Event>, registry: (Hash, nat),
                             clock: int, onChain: Miner -> Counters, steps: seq<Step>)
    requires Boot(cfg, wiringOk, head, batch, registry).Some?
    ensures var w := Booted(cfg, wiringOk, head, batch, registry, clock, onChain);
            Progress.AllPinned(cfg, RunHistory(cfg, w, BootHistory(cfg, batch), steps))
  {
    var first := BootHistory(cfg, batch);
    Progress.AcceptedPinned(cfg, Launched(cfg), batch);
    assert forall i :: 0 <= i < |first| ==> first[i] in first;
    RunPinned(cfg, Booted(cfg, wiringOk, head, batch, registry, clock, onChain), first, steps);
  }
}
