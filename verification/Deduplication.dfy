/** The same patch on the same parent is not signed twice while a receipt for it can still land. */
module Deduplication {
  import opened Wrappers
  import opened Chain
  import opened Watcher
  import opened Signing
  import opened Receipts
  import Progress

  type DedupKey = (Hash, Hash)

  /** The key of a receipt: its parent root and the hash of the patch as the miner submitted it. */
  function KeyOf(r: Receipt): DedupKey {
    (r.parentStateRoot, r.originalPatchHash)
  }

  function EntryKey(p: PendingReceipt): DedupKey {
    (p.parentRoot, p.originalPatchHash)
  }

  function DraftKey(d: Draft): DedupKey {
    (d.prepared.submit.parentStateRoot, d.prepared.originalPatchHash)
  }

  // ── the invariant ────────────────────────────────────────────────────────────

  ghost predicate StillLive(signed: seq<Receipt>, clock: int, i: int) {
    0 <= i < |signed| && signed[i].expiresAt > clock
  }

  /** The key of every unexpired receipt is taken, for at least as long. */
  ghost predicate Guarded(dedup: map<DedupKey, int>, signed: seq<Receipt>, clock: int) {
    forall i :: StillLive(signed, clock, i) ==>
      KeyOf(signed[i]) in dedup && dedup[KeyOf(signed[i])] >= signed[i].expiresAt
  }

  /** No two unexpired receipts have the same key. */
  ghost predicate SignedOnce(signed: seq<Receipt>, clock: int) {
    forall i, j :: StillLive(signed, clock, i) && StillLive(signed, clock, j) && KeyOf(signed[i]) == KeyOf(signed[j])
      ==> i == j
  }

  /** The entries whose expiry may give their key back: those pending, or, where a rollback may reopen
      them, all. */
  predicate Counts(rollbacks: bool, p: PendingReceipt) {
    if rollbacks then p.state != Expired else p.state == Pending
  }

  /** Such an entry lives as long as an unexpired receipt of its key. */
  ghost predicate Twins(rollbacks: bool, pending: map<Hash, PendingReceipt>, signed: seq<Receipt>, clock: int) {
    forall k, i :: k in pending && Counts(rollbacks, pending[k]) && StillLive(signed, clock, i)
                   && EntryKey(pending[k]) == KeyOf(signed[i]) ==>
      pending[k].expiresAt >= signed[i].expiresAt
  }

  /** Pending entries have taken keys, each its own. */
  ghost predicate PendingTaken(pending: map<Hash, PendingReceipt>, dedup: map<DedupKey, int>) {
    && (forall k :: k in pending && pending[k].state == Pending ==>
          EntryKey(pending[k]) in dedup && dedup[EntryKey(pending[k])] >= pending[k].expiresAt)
    && (forall k, m :: k in pending && pending[k].state == Pending && m in pending && pending[m].state == Pending ==>
          EntryKey(pending[k]) != EntryKey(pending[m]) || k == m)
  }

  ghost predicate Books(rollbacks: bool, core: Core, signed: seq<Receipt>, clock: int) {
    && Guarded(core.submitDedup, signed, clock) && SignedOnce(signed, clock)
    && Twins(rollbacks, core.pending, signed, clock)
    && (!rollbacks ==> PendingTaken(core.pending, core.submitDedup))
  }

  ghost predicate Deduplicated(rollbacks: bool, w: World) {
    && Books(rollbacks, w.core, w.signed, w.clock)
    && (w.lane.Drafted? ==> DraftKey(w.lane.draft) !in w.core.submitDedup)
  }

  // ── ticks ────────────────────────────────────────────────────────────────────

  /** Entries are only marked, and none becomes pending unless a rollback may reopen it. */
  ghost predicate OnlyMarks(rollbacks: bool, before: map<Hash, PendingReceipt>, after: map<Hash, PendingReceipt>) {
    forall k :: k in after ==>
      && k in before && after[k] == before[k].(state := after[k].state)
      && (before[k].state == Expired ==> after[k].state == Expired)
      && (!rollbacks && after[k].state == Pending ==> before[k].state == Pending)
  }

  lemma MarksChain(rollbacks: bool, a: map<Hash, PendingReceipt>, b: map<Hash, PendingReceipt>,
                   c: map<Hash, PendingReceipt>)
    requires OnlyMarks(rollbacks, a, b) && OnlyMarks(rollbacks, b, c)
    ensures OnlyMarks(rollbacks, a, c)
  {
  }

  lemma MarksKeepBooks(rollbacks: bool, core: Core, next: Core, signed: seq<Receipt>, clock: int)
    requires Books(rollbacks, core, signed, clock) && next.submitDedup == core.submitDedup
    requires OnlyMarks(rollbacks, core.pending, next.pending)
    ensures Books(rollbacks, next, signed, clock)
  {
  }

  lemma {:induction false} BatchOnlyMarks(cfg: Config, core: Core, batch: seq<Event>)
    ensures var next := ApplyBatch(cfg, core, batch).0;
            next.submitDedup == core.submitDedup && OnlyMarks(false, core.pending, next.pending)
    decreases |batch|
  {
    if batch != [] && ApplyChainEvent(cfg, core, batch[0]).Some? {
      var next := ApplyChainEvent(cfg, core, batch[0]).value;
      BatchOnlyMarks(cfg, next, batch[1..]);
      assert OnlyMarks(false, core.pending, next.pending);
      MarksChain(false, core.pending, next.pending, ApplyBatch(cfg, next, batch[1..]).0.pending);
    }
  }

  lemma MarksAreMarks(before: map<Hash, PendingReceipt>, after: map<Hash, PendingReceipt>)
    requires OnlyMarks(false, before, after)
    ensures OnlyMarks(true, before, after)
  {
  }

  lemma ScanOnlyMarks(cfg: Config, core: Core, head: nat, r: TickReads)
    ensures var next := Scanned(cfg, core, head, r).0;
            next.submitDedup == core.submitDedup && OnlyMarks(false, core.pending, next.pending)
  {
    if r.batch.Some? {
      BatchOnlyMarks(cfg, core, r.batch.value);
    }
  }

  /** A sweep at the current time gives back no key of an unexpired receipt. */
  lemma GcKeepsBooks(rollbacks: bool, core: Core, signed: seq<Receipt>, now: int)
    requires Books(rollbacks, core, signed, now)
    ensures Books(rollbacks, GcPending(core, now), signed, now)
  {
    var next := GcPending(core, now);
    forall i | StillLive(signed, now, i)
      ensures KeyOf(signed[i]) in next.submitDedup
    {
      LiveKeyStays(rollbacks, core, signed, now, i);
    }
    if !rollbacks {
      forall k | k in next.pending && next.pending[k].state == Pending
        ensures EntryKey(next.pending[k]) in next.submitDedup
      {
        PendingKeyStays(core, now, k);
      }
    }
  }

  lemma LiveKeyStays(rollbacks: bool, core: Core, signed: seq<Receipt>, now: int, i: int)
    requires Books(rollbacks, core, signed, now) && StillLive(signed, now, i)
    ensures KeyOf(signed[i]) !in Released(core.pending, now)
  {
    assert forall k :: k in core.pending && Expiring(core.pending[k], now) ==> Counts(rollbacks, core.pending[k]);
  }

  lemma PendingKeyStays(core: Core, now: int, k: Hash)
    requires PendingTaken(core.pending, core.submitDedup) && k in core.pending
    requires core.pending[k].state == Pending && core.pending[k].expiresAt > now
    ensures EntryKey(core.pending[k]) !in Released(core.pending, now)
  {
  }

  lemma SettleKeepsBooks(cfg: Config, rollbacks: bool, core: Core, head: nat, r: TickReads, signed: seq<Receipt>)
    requires Books(rollbacks, core, signed, r.now)
    ensures Books(rollbacks, Settled(cfg, core, head, r), signed, r.now)
  {
    var (scanned, ok) := Scanned(cfg, core, head, r);
    ScanOnlyMarks(cfg, core, head, r);
    MarksAreMarks(core.pending, scanned.pending);
    MarksKeepBooks(rollbacks, core, scanned, signed, r.now);
    if ok && r.registry.Some? {
      var checked := ParityChecked(scanned, r.registry.value);
      MarksKeepBooks(rollbacks, scanned, checked, signed, r.now);
      GcKeepsBooks(rollbacks, checked, signed, r.now);
    }
  }

  lemma {:induction false} AfterSnapshotsMarks(p: PendingReceipt, snapshots: seq<Snapshot>)
    ensures var q := AfterSnapshots(p, snapshots);
            q == p.(state := q.state) && (p.state == Expired ==> q.state == Expired)
  {
    if snapshots != [] {
      AfterSnapshotsMarks(p, snapshots[..|snapshots| - 1]);
    }
  }

  lemma RollbackOnlyMarks(cfg: Config, core: Core, at: nat -> Option<Hash>)
    ensures var next := HandleReorg(cfg, core, at);
            next.submitDedup == core.submitDedup && OnlyMarks(true, core.pending, next.pending)
  {
    var n := Surviving(core.snapshots, at);
    forall k | k in core.pending
      ensures var q := HandleReorg(cfg, core, at).pending[k];
              q == core.pending[k].(state := q.state) && (core.pending[k].state == Expired ==> q.state == Expired)
    {
      RollbackEntry(cfg, core, n, k);
      AfterSnapshotsMarks(Reopened(core.pending[k]), core.snapshots[..n]);
    }
  }

  lemma TickKeepsBooks(cfg: Config, rollbacks: bool, core: Core, r: TickReads, signed: seq<Receipt>)
    requires Books(rollbacks, core, signed, r.now) && (!rollbacks ==> !RollsBack(cfg, core, r))
    ensures Books(rollbacks, Tick(cfg, core, r), signed, r.now)
  {
    if Proceeds(cfg, core, r) {
      Progress.TickAfterCheck(cfg, core, [], r);
      var checked := AfterReorgCheck(cfg, core, r.hashes);
      if NeedsReorg(core, r.hashes.newest) {
        RollbackOnlyMarks(cfg, core, r.hashes.at);
        MarksKeepBooks(rollbacks, core, checked, signed, r.now);
      }
      SettleKeepsBooks(cfg, rollbacks, checked, r.head.value, r, signed);
    } else if r.epochNow.Some? && r.epochNow.value != cfg.epoch {
      GcKeepsBooks(rollbacks, core.(signingEnabled := false), signed, r.now);
    }
  }

  // ── signing ──────────────────────────────────────────────────────────────────

  /** No entry that counts has the key of the draft. */
  ghost predicate FreshKey(rollbacks: bool, pending: map<Hash, PendingReceipt>, d: Draft) {
    forall k :: k in pending && Counts(rollbacks, pending[k]) ==> EntryKey(pending[k]) != DraftKey(d)
  }

  lemma SigningTakesKey(dedup: map<DedupKey, int>, signed: seq<Receipt>, clock: int, r: Receipt)
    requires Guarded(dedup, signed, clock) && SignedOnce(signed, clock) && KeyOf(r) !in dedup
    ensures Guarded(dedup[KeyOf(r) := r.expiresAt], signed + [r], clock) && SignedOnce(signed + [r], clock)
    ensures forall i :: StillLive(signed, clock, i) ==> KeyOf(signed[i]) != KeyOf(r)
  {
    assert forall i :: StillLive(signed + [r], clock, i) && i < |signed| ==> StillLive(signed, clock, i);
  }

  lemma SigningKeepsTwins(cfg: Config, rollbacks: bool, core: Core, d: Draft, hash: Option<Hash>,
                          signed: seq<Receipt>, clock: int)
    requires Twins(rollbacks, core.pending, signed, clock) && FreshKey(rollbacks, core.pending, d)
    requires forall i :: StillLive(signed, clock, i) ==> KeyOf(signed[i]) != DraftKey(d)
    ensures Twins(rollbacks, Record(cfg, core, d, hash).pending, signed + [Signed(cfg, d, hash)], clock)
  {
    var next, grown := Record(cfg, core, d, hash), signed + [Signed(cfg, d, hash)];
    assert forall i :: StillLive(grown, clock, i) && i < |signed| ==> StillLive(signed, clock, i);
    forall k, i | k in next.pending && Counts(rollbacks, next.pending[k]) && StillLive(grown, clock, i)
                  && EntryKey(next.pending[k]) == KeyOf(grown[i])
      ensures next.pending[k].expiresAt >= grown[i].expiresAt
    {
      if i < |signed| {
        assert grown[i] == signed[i];
      }
    }
  }

  lemma SigningKeepsBooks(cfg: Config, rollbacks: bool, core: Core, d: Draft, hash: Option<Hash>, signed: seq<Receipt>,
                          clock: int)
    requires Books(rollbacks, core, signed, clock) && DraftKey(d) !in core.submitDedup
    requires rollbacks ==> FreshKey(rollbacks, core.pending, d)
    ensures Books(rollbacks, Record(cfg, core, d, hash), signed + [Signed(cfg, d, hash)], clock)
  {
    SigningTakesKey(core.submitDedup, signed, clock, Signed(cfg, d, hash));
    SigningKeepsTwins(cfg, rollbacks, core, d, hash, signed, clock);
  }

  // ── runs ─────────────────────────────────────────────────────────────────────

  /** The step signs. */
  predicate Signs(w: World, step: Step) {
    step.FinishEnd? && w.lane.Drafted? && step.reply.Some?
  }

  /** Without rollbacks any step but one; with them, no signing while an older entry of the key is kept. */
  ghost predicate Allowed(cfg: Config, rollbacks: bool, w: World, step: Step) {
    if rollbacks then Signs(w, step) ==> FreshKey(true, w.core.pending, w.lane.draft)
    else !StepRollsBack(cfg, w, step)
  }

  ghost predicate AllAllowed(cfg: Config, rollbacks: bool, w: World, steps: seq<Step>) {
    steps == [] ||
    (AllAllowed(cfg, rollbacks, w, steps[..|steps| - 1])
     && Allowed(cfg, rollbacks, Run(cfg, w, steps[..|steps| - 1]), steps[|steps| - 1]))
  }

  lemma LaterBooks(rollbacks: bool, core: Core, signed: seq<Receipt>, clock: int, later: int)
    requires Books(rollbacks, core, signed, clock) && clock <= later
    ensures Books(rollbacks, core, signed, later)
  {
    assert forall i :: StillLive(signed, later, i) ==> StillLive(signed, clock, i);
  }

  lemma StepKeepsBooks(cfg: Config, rollbacks: bool, w: World, step: Step)
    requires Deduplicated(rollbacks, w) && Allowed(cfg, rollbacks, w, step)
    ensures var v := Next(cfg, w, step); Books(rollbacks, v.core, v.signed, v.clock)
  {
    match step
    case Clock(t) => if t >= w.clock { LaterBooks(rollbacks, w.core, w.signed, w.clock, t); }
    case TickEnd(r) =>
      if w.ticking && r.now == w.clock {
        TickKeepsBooks(cfg, rollbacks, w.core, r, w.signed);
      }
    case PrepareBegin(_) => GcKeepsBooks(rollbacks, w.core, w.signed, w.clock);
    case FinishEnd(reply) =>
      if Signs(w, step) {
        SigningKeepsBooks(cfg, rollbacks, w.core, w.lane.draft, reply.value, w.signed, w.clock);
      }
    case _ =>
  }

  lemma DraftStaysFresh(cfg: Config, w: World, step: Step)
    requires Exclusive(w) && (w.lane.Drafted? ==> DraftKey(w.lane.draft) !in w.core.submitDedup)
    ensures var v := Next(cfg, w, step); v.lane.Drafted? ==> DraftKey(v.lane.draft) !in v.core.submitDedup
  {
  }

  lemma {:induction false} RunDeduplicates(cfg: Config, rollbacks: bool, w: World, steps: seq<Step>)
    requires Deduplicated(rollbacks, w) && Exclusive(w) && AllAllowed(cfg, rollbacks, w, steps)
    ensures Deduplicated(rollbacks, Run(cfg, w, steps))
  {
    if steps != [] {
      var n := |steps| - 1;
      RunDeduplicates(cfg, rollbacks, w, steps[..n]);
      RunExclusive(cfg, w, steps[..n]);
      StepKeepsBooks(cfg, rollbacks, Run(cfg, w, steps[..n]), steps[n]);
      DraftStaysFresh(cfg, Run(cfg, w, steps[..n]), steps[n]);
    }
  }

  lemma {:induction false} NoRollbackAllowed(cfg: Config, w: World, steps: seq<Step>)
    requires !RunRollsBack(cfg, w, steps)
    ensures AllAllowed(cfg, false, w, steps)
  {
    if steps != [] {
      NoRollbackAllowed(cfg, w, steps[..|steps| - 1]);
    }
  }

  /** No two receipts with one parent and one submitted patch could land at the same time. */
  ghost predicate NoTwins(w: World) {
    forall i, j :: 0 <= i < j < |w.signed| && Live(w, i) && Live(w, j) ==>
      (w.signed[i].parentStateRoot, w.signed[i].originalPatchHash)
      != (w.signed[j].parentStateRoot, w.signed[j].originalPatchHash)
  }

  /** In every run without a rollback, from a process that has signed nothing. */
  lemma NeverSignedTwice(cfg: Config, core: Core, clock: int, onChain: Miner -> Counters, steps: seq<Step>)
    requires core.pending == map[] && !RunRollsBack(cfg, Start(core, clock, onChain), steps)
    ensures NoTwins(Run(cfg, Start(core, clock, onChain), steps))
  {
    var w := Start(core, clock, onChain);
    NoRollbackAllowed(cfg, w, steps);
    RunDeduplicates(cfg, false, w, steps);
    OnceMeansNoTwins(Run(cfg, w, steps));
  }

  /** And in every run with rollbacks in which nothing is signed while an entry of an older receipt with the
      same parent and patch is still kept. */
  lemma NeverSignedTwiceWithRollbacks(cfg: Config, core: Core, clock: int, onChain: Miner -> Counters,
                                      steps: seq<Step>)
    requires core.pending == map[] && AllAllowed(cfg, true, Start(core, clock, onChain), steps)
    ensures NoTwins(Run(cfg, Start(core, clock, onChain), steps))
  {
    var w := Start(core, clock, onChain);
    RunDeduplicates(cfg, true, w, steps);
    OnceMeansNoTwins(Run(cfg, w, steps));
  }

  lemma OnceMeansNoTwins(w: World)
    requires SignedOnce(w.signed, w.clock)
    ensures NoTwins(w)
  {
    forall i, j | 0 <= i < j < |w.signed| && Live(w, i) && Live(w, j)
      ensures KeyOf(w.signed[i]) != KeyOf(w.signed[j])
    {
      assert StillLive(w.signed, w.clock, i) && StillLive(w.signed, w.clock, j);
    }
  }
}
