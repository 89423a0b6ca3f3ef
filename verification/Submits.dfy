/** What an undisturbed submit does, from preparing to signing, and runs built from such submits. */
module Submits {
  import opened Wrappers
  import opened Chain
  import opened Watcher
  import opened Signing

  // ── running step by step ─────────────────────────────────────────────────────

  lemma {:induction false} RunThen(cfg: Config, w: World, a: seq<Step>, b: seq<Step>)
    ensures Run(cfg, w, a + b) == Run(cfg, Run(cfg, w, a), b)
    decreases |b|
  {
    if b == [] {
      assert a + b == a;
    } else {
      assert (a + b)[..|a + b| - 1] == a + b[..|b| - 1];
      RunThen(cfg, w, a, b[..|b| - 1]);
    }
  }

  lemma RunOne(cfg: Config, w: World, step: Step)
    ensures Run(cfg, w, [step]) == Next(cfg, w, step)
  {
    assert [step][..0] == [];
    assert Run(cfg, w, []) == w;
  }

  lemma RunMore(cfg: Config, w: World, steps: seq<Step>, step: Step)
    ensures Run(cfg, w, steps + [step]) == Next(cfg, Run(cfg, w, steps), step)
  {
    RunThen(cfg, w, steps, [step]);
    RunOne(cfg, Run(cfg, w, steps), step);
  }

  // ── the four steps of a submit ───────────────────────────────────────────────

  function SubmitSteps(cfg: Config, s: Submit, result: EvalResult, hash: Option<Hash>): seq<Step> {
    [PrepareBegin(s), PrepareEnd(Some(cfg.epoch), true), FinishBegin(result, Some(cfg.epoch)), FinishEnd(Some(hash))]
  }

  function Original(cfg: Config, s: Submit): Hash {
    cfg.crypto.patchHash(cfg.crypto.rescore(s.patchBytes, 0))
  }

  /** The miner has a reservation the chain has not caught up with. */
  predicate Ahead(core: Core, m: Miner, c: Counters) {
    m in core.reservations && core.reservations[m].nextIndex > c.nextIndex
  }

  /** The parent is live, the patch names it and applies, and no unexpired receipt holds its key. */
  predicate Preparable(cfg: Config, core: Core, s: Submit) {
    && core.signingEnabled && s.parentStateRoot == core.liveRoot
    && cfg.crypto.wireParent(s.patchBytes) == core.liveRoot
    && cfg.crypto.applyPatch(core.liveState, s.patchBytes).Some?
    && (core.liveRoot, Original(cfg, s)) !in core.submitDedup
  }

  /** The evaluation passed, the miner's last receipt is known where the next one must build on it, and the
      cap has room for it and for all reserved before. */
  predicate Signable(cfg: Config, core: Core, s: Submit, c: Counters, result: EvalResult) {
    && !result.Reject? && result.passes
    && (Ahead(core, s.miner, c) ==> core.reservations[s.miner].lastReceiptHash.Some?)
    && (result.ScreenerPass? ==>
          cfg.perMinerScreenerCap > c.screenersThisEpoch
            + if Ahead(core, s.miner, c) then core.reservations[s.miner].nextIndex - c.nextIndex else 0)
    && (result.StateAdvance? ==>
          cfg.crypto.applyPatch(core.liveState, cfg.crypto.rescore(s.patchBytes, result.scoreDelta)).Some?)
  }

  /** The receipt: on the live root, continuing the miner's reserved receipts or else its chain, timed from
      the submit, with the state the rescored patch leads to, or none for a screener pass. */
  ghost predicate Issued(cfg: Config, core: Core, clock: int, s: Submit, c: Counters, result: EvalResult,
                         hash: Option<Hash>, r: Receipt)
    requires Signable(cfg, core, s, c, result)
  {
    && r.miner == s.miner && r.parentStateRoot == core.liveRoot && r.originalPatchHash == Original(cfg, s)
    && r.expiresAt == clock + cfg.receiptTtlSec && r.receiptHash == hash && r.screener == result.ScreenerPass?
    && r.onReservation == Ahead(core, s.miner, c)
    && (if Ahead(core, s.miner, c)
        then r.solveIndex == core.reservations[s.miner].nextIndex
             && core.reservations[s.miner].lastReceiptHash == Some(r.prevReceiptHash)
        else r.solveIndex == c.nextIndex && r.prevReceiptHash == c.lastReceiptHash)
    && (if result.ScreenerPass? then r.newStateRoot == core.liveRoot && r.patchHash == Original(cfg, s)
        else
          var bytes := cfg.crypto.rescore(s.patchBytes, result.scoreDelta);
          r.newStateRoot == cfg.crypto.merkle(cfg.crypto.applyPatch(core.liveState, bytes).value)
          && r.patchHash == cfg.crypto.patchHash(bytes))
  }

  /** The books: the key is taken and the next index reserved until the receipt expires, and a state advance
      is pending on the live root; nothing else changed. */
  ghost predicate Noted(core: Core, next: Core, r: Receipt) {
    && next.submitDedup == core.submitDedup[(core.liveRoot, r.originalPatchHash) := r.expiresAt]
    && next.reservations == core.reservations[r.miner := Reservation(r.solveIndex + 1, r.receiptHash, r.expiresAt)]
    && next == core.(submitDedup := next.submitDedup, reservations := next.reservations, pending := next.pending)
    && (if r.screener then next.pending == core.pending
        else
          && r.patchHash in next.pending && next.pending == core.pending[r.patchHash := next.pending[r.patchHash]]
          && var p := next.pending[r.patchHash];
             && p.state == Pending && p.parentRoot == core.liveRoot && p.expectedNewRoot == r.newStateRoot
             && p.signedPatchHash == r.patchHash && p.originalPatchHash == r.originalPatchHash
             && p.miner == r.miner && p.expiresAt == r.expiresAt)
  }

  lemma Prepares(cfg: Config, w: World, s: Submit) returns (v: World)
    requires w.lane.Idle? && !w.ticking && !w.core.frozen
    ensures v == Next(cfg, Next(cfg, w, PrepareBegin(s)), PrepareEnd(Some(cfg.epoch), true))
    ensures v == w.(core := GcPending(w.core, w.clock), lane := v.lane)
    ensures v.lane == if Preparable(cfg, v.core, s)
                      then Scoring(Prepared(w.clock, s, Original(cfg, s), v.core.liveRoot, v.core.liveState,
                                            v.core.freezeGeneration))
                      else Idle
  {
    v := Next(cfg, Next(cfg, w, PrepareBegin(s)), PrepareEnd(Some(cfg.epoch), true));
  }

  ghost predicate JustPrepared(cfg: Config, w: World, s: Submit) {
    && !w.ticking && !w.core.frozen && Preparable(cfg, w.core, s)
    && w.lane == Scoring(Prepared(w.clock, s, Original(cfg, s), w.core.liveRoot, w.core.liveState,
                                  w.core.freezeGeneration))
  }

  lemma Drafts(cfg: Config, w: World, s: Submit, result: EvalResult) returns (v: World)
    requires JustPrepared(cfg, w, s)
    ensures v == Next(cfg, w, FinishBegin(result, Some(cfg.epoch)))
    ensures v == w.(core := w.core.(reservations := v.core.reservations), lane := v.lane)
    ensures v.lane.Drafted? <==> Signable(cfg, w.core, s, w.onChain(s.miner), result)
    ensures !v.lane.Drafted? ==> v.lane.Idle?
    ensures forall m :: m != s.miner ==> (m in v.core.reservations <==> m in w.core.reservations)
    ensures forall m :: m != s.miner && m in w.core.reservations ==> v.core.reservations[m] == w.core.reservations[m]
  {
    v := Next(cfg, w, FinishBegin(result, Some(cfg.epoch)));
  }

  lemma DraftedAs(cfg: Config, w: World, s: Submit, result: EvalResult, hash: Option<Hash>)
    requires JustPrepared(cfg, w, s) && Signable(cfg, w.core, s, w.onChain(s.miner), result)
    requires Next(cfg, w, FinishBegin(result, Some(cfg.epoch))).lane.Drafted?
    ensures var d := Next(cfg, w, FinishBegin(result, Some(cfg.epoch))).lane.draft;
            && Issued(cfg, w.core, w.clock, s, w.onChain(s.miner), result, hash, Signed(cfg, d, hash))
            && d.prepared == w.lane.prepared
  {
  }

  lemma UpdatedReservations(a: map<Miner, Reservation>, b: map<Miner, Reservation>, m: Miner, x: Reservation)
    requires forall k :: k != m ==> (k in b <==> k in a)
    requires forall k :: k != m && k in a ==> b[k] == a[k]
    ensures b[m := x] == a[m := x]
  {
    var p, q := b[m := x], a[m := x];
    forall k
      ensures k in p <==> k in q
    {
      assert k != m ==> (k in b <==> k in a);
    }
  }

  lemma Notes(core: Core, mid: Core, cfg: Config, d: Draft, hash: Option<Hash>)
    requires mid == core.(reservations := mid.reservations) && d.prepared.submit.parentStateRoot == core.liveRoot
    requires var (m, x) :=
             (d.prepared.submit.miner, Reservation(d.solveIndex + 1, hash, d.prepared.now + cfg.receiptTtlSec));
             mid.reservations[m := x] == core.reservations[m := x]
    ensures Noted(core, Record(cfg, mid, d, hash), Signed(cfg, d, hash))
  {
  }

  lemma Finishes(cfg: Config, w: World, s: Submit, result: EvalResult, hash: Option<Hash>) returns (v: World)
    requires JustPrepared(cfg, w, s)
    ensures v == Next(cfg, Next(cfg, w, FinishBegin(result, Some(cfg.epoch))), FinishEnd(Some(hash)))
    ensures v.lane.Idle? && v == w.(core := v.core, lane := Idle, signed := v.signed)
    ensures if Signable(cfg, w.core, s, w.onChain(s.miner), result) then
              && |v.signed| == |w.signed| + 1 && v.signed[..|w.signed|] == w.signed
              && Issued(cfg, w.core, w.clock, s, w.onChain(s.miner), result, hash, v.signed[|w.signed|])
              && Noted(w.core, v.core, v.signed[|w.signed|])
            else v.signed == w.signed
  {
    var mid := Drafts(cfg, w, s, result);
    v := Next(cfg, mid, FinishEnd(Some(hash)));
    if mid.lane.Drafted? {
      var d := mid.lane.draft;
      DraftedAs(cfg, w, s, result, hash);
      UpdatedReservations(w.core.reservations, mid.core.reservations, s.miner,
                          Reservation(d.solveIndex + 1, hash, d.prepared.now + cfg.receiptTtlSec));
      Notes(w.core, mid.core, cfg, d, hash);
      assert v.core == Record(cfg, mid.core, d, hash);
    }
  }

  /** A submit that nothing interrupts, in any state in which the coordinator is idle and not frozen: after
      the sweep it is signed if and only if it is preparable and signable, and then exactly the receipt and
      the books change. */
  lemma SubmitSignsIff(cfg: Config, w: World, s: Submit, result: EvalResult, hash: Option<Hash>)
    requires w.lane.Idle? && !w.ticking && !w.core.frozen
    ensures var (v, swept) := (Run(cfg, w, SubmitSteps(cfg, s, result, hash)), GcPending(w.core, w.clock));
            var c := w.onChain(s.miner);
            && v.lane.Idle? && v == w.(core := v.core, signed := v.signed)
            && if Preparable(cfg, swept, s) && Signable(cfg, swept, s, c, result) then
                 && |v.signed| == |w.signed| + 1 && v.signed[..|w.signed|] == w.signed
                 && Issued(cfg, swept, w.clock, s, c, result, hash, v.signed[|w.signed|])
                 && Noted(swept, v.core, v.signed[|w.signed|])
               else v.signed == w.signed
  {
    var steps := SubmitSteps(cfg, s, result, hash);
    var prepared := Prepares(cfg, w, s);
    RunOfFour(cfg, w, steps);
    if prepared.lane.Scoring? {
      var v := Finishes(cfg, prepared, s, result, hash);
    }
  }

  lemma RunOfFour(cfg: Config, w: World, steps: seq<Step>)
    requires |steps| == 4
    ensures Run(cfg, w, steps) == Next(cfg, Next(cfg, Next(cfg, Next(cfg, w, steps[0]), steps[1]), steps[2]), steps[3])
  {
    var a, b := [steps[0], steps[1]], [steps[2], steps[3]];
    var mid := RunOfTwo(cfg, w, steps[0], steps[1]);
    RunThen(cfg, w, a, b);
    var end := RunOfTwo(cfg, mid, steps[2], steps[3]);
    assert steps == a + b;
  }

  lemma RunOfTwo(cfg: Config, w: World, a: Step, b: Step) returns (v: World)
    ensures v == Next(cfg, Next(cfg, w, a), b) && Run(cfg, w, [a, b]) == v
  {
    v := Next(cfg, Next(cfg, w, a), b);
    RunOne(cfg, w, a);
    RunMore(cfg, w, [a], b);
    assert [a, b] == [a] + [b];
  }

  // ── the epoch gates ──────────────────────────────────────────────────────────

  /** A submit whose epoch read fails, or shows another epoch, is rejected: while preparing, signing is switched
      off as well; before signing, only if the read failed. */
  lemma EpochGates(cfg: Config, w: World, epochNow: Option<nat>, ok: bool, result: EvalResult)
    requires epochNow != Some(cfg.epoch)
    ensures w.lane.Preparing? ==>
              var v := Next(cfg, w, PrepareEnd(epochNow, ok));
              v.lane.Idle? && v == w.(lane := Idle, core := w.core.(signingEnabled := false))
    ensures w.lane.Scoring? && MutexFree(w) ==>
              var v, p := Next(cfg, w, FinishBegin(result, epochNow)), w.lane.prepared;
              && v.lane.Idle? && v.signed == w.signed
              && (epochNow.Some? ==> v.core == w.core)
              && (epochNow.None? && !result.Reject? && MaySign(cfg, w.core, p, Some(cfg.epoch)) ==>
                    v.core == w.core.(signingEnabled := false))
  {
  }
}
