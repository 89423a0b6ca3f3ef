/** Submits, signing and freezing around the watcher, as a state machine over the points where the
    coordinator can be interrupted: ticks may fall while a patch is scored, on-chain landings and
    `freeze()` may fall anywhere. */
module Signing {
  import opened Wrappers
  import opened Chain
  import opened Watcher

  /** The V4 contract's view of one miner. */
  datatype Counters = Counters(screenersThisEpoch: nat, nextIndex: nat, lastReceiptHash: Hash)

  datatype Submit = Submit(miner: Miner, parentStateRoot: Hash, patchBytes: Bytes)

  /** What prepareSubmitEvaluation hands to the scorer and to the signing section. */
  datatype Prepared = Prepared(
    now: int, submit: Submit, originalPatchHash: Hash,
    rootAtEvaluation: Hash, parentStateSnapshot: CortexState, freezeGeneration: nat)

  /** An accepted evaluation; every validation of it that only rejects is folded into `passes`. */
  datatype EvalResult = Reject | ScreenerPass(passes: bool) | StateAdvance(passes: bool, scoreDelta: int)

  /** The receipt a signing section has built and not yet had signed. */
  datatype Draft = Draft(
    prepared: Prepared, screener: bool, solveIndex: nat, prevReceiptHash: Hash, onReservation: bool,
    compactPatchBytes: Bytes, signedPatchHash: Hash, newStateRoot: Hash, sectionGeneration: nat)

  datatype Receipt = Receipt(
    miner: Miner, screener: bool, solveIndex: nat, prevReceiptHash: Hash, onReservation: bool,
    parentStateRoot: Hash, newStateRoot: Hash, patchHash: Hash, originalPatchHash: Hash, expiresAt: int,
    receiptHash: Option<Hash>,
    preparedGeneration: nat, sectionGeneration: nat)  // freeze() calls before each section

  /** One submit is in flight at a time (FIFO queue); Preparing and Drafted hold the mutex. */
  datatype Lane = Idle | Preparing(now: int, submit: Submit) | Scoring(prepared: Prepared) | Drafted(draft: Draft)

  datatype World = World(
    core: Core, ticking: bool, lane: Lane,
    clock: int, onChain: Miner -> Counters, signed: seq<Receipt>)

  datatype Step =
    | Clock(t: int)
    | TickBegin
    | TickEnd(r: TickReads)
    | PrepareBegin(submit: Submit)
    | PrepareEnd(epochNow: Option<nat>, otherwiseOk: bool)
    | FinishBegin(result: EvalResult, epochNow: Option<nat>)
    | FinishEnd(reply: Option<Option<Hash>>)            // None: the signer failed
    | Freeze
    | Unfreeze
    | Land(i: nat, hash: Hash)                          // signed receipt i is mined
    | ForeignLand(miner: Miner, hash: Hash)             // a receipt of another lane is mined

  predicate MutexFree(w: World) {
    !w.ticking && (w.lane.Idle? || w.lane.Scoring?)
  }

  // ── the sections of a submit ─────────────────────────────────────────────────

  /** prepareSubmitEvaluation from the epoch read on; Idle is a rejection. */
  function Prepare(cfg: Config, core: Core, now: int, s: Submit, epochNow: Option<nat>, otherwiseOk: bool): Lane {
    var original := cfg.crypto.patchHash(cfg.crypto.rescore(s.patchBytes, 0));
    if epochNow != Some(cfg.epoch) || !core.signingEnabled || !otherwiseOk then Idle
    else if s.parentStateRoot != core.liveRoot || cfg.crypto.wireParent(s.patchBytes) != s.parentStateRoot then Idle
    else if cfg.crypto.applyPatch(core.liveState, s.patchBytes).None? then Idle
    else if (s.parentStateRoot, original) in core.submitDedup then Idle
    else Scoring(Prepared(now, s, original, core.liveRoot, core.liveState, core.freezeGeneration))
  }

  /** prepareSubmitEvaluation switches signing off when the epoch cannot be read or has moved on. */
  function PrepareHealth(cfg: Config, core: Core, epochNow: Option<nat>): Core {
    if epochNow == Some(cfg.epoch) then core else core.(signingEnabled := false)
  }

  function ReservedGap(core: Core, m: Miner, c: Counters): nat {
    if m in core.reservations && core.reservations[m].nextIndex > c.nextIndex
    then core.reservations[m].nextIndex - c.nextIndex else 0
  }

  predicate CaughtUp(core: Core, m: Miner, c: Counters) {
    m in core.reservations && c.nextIndex >= core.reservations[m].nextIndex
  }

  /** The reservation table after the counters were read. */
  function AfterCounters(core: Core, m: Miner, c: Counters): Core {
    if CaughtUp(core, m, c)
    then core.(reservations := map x | x in core.reservations && x != m :: core.reservations[x]) else core
  }

  predicate Chaining(core: Core, m: Miner, c: Counters) {
    m in core.reservations && !CaughtUp(core, m, c)
  }

  predicate Blocked(core: Core, m: Miner, c: Counters) {
    Chaining(core, m, c) && core.reservations[m].lastReceiptHash.None?
  }

  function BuildDraft(cfg: Config, core: Core, p: Prepared, c: Counters, screener: bool,
                      bytes: Bytes, newRoot: Hash): Draft
    requires !Blocked(core, p.submit.miner, c)
  {
    var m := p.submit.miner;
    var chain := Chaining(core, m, c);
    Draft(p, screener,
          if chain then core.reservations[m].nextIndex else c.nextIndex,
          if chain then core.reservations[m].lastReceiptHash.value else c.lastReceiptHash,
          chain, bytes, if screener then p.originalPatchHash else cfg.crypto.patchHash(bytes), newRoot,
          core.freezeGeneration)
  }

  /** The guards of finishSubmitAfterEvaluation before the counters are read. */
  predicate MaySign(cfg: Config, core: Core, p: Prepared, epochNow: Option<nat>) {
    && (p.submit.parentStateRoot, p.originalPatchHash) !in core.submitDedup
    && !core.frozen && core.freezeGeneration == p.freezeGeneration
    && core.liveRoot == p.rootAtEvaluation
    && epochNow == Some(cfg.epoch)
  }

  /** The cap counts the chain's passes and the reserved, un-landed receipts. */
  predicate CapReached(cfg: Config, core: Core, m: Miner, c: Counters) {
    c.screenersThisEpoch + ReservedGap(core, m, c) >= cfg.perMinerScreenerCap
  }

  /** finishSubmitAfterEvaluation up to the signer call; Idle is a rejection. */
  function BeginFinish(cfg: Config, core: Core, p: Prepared, c: Counters, result: EvalResult,
                       epochNow: Option<nat>): Lane {
    var m := p.submit.miner;
    if result.Reject? || !MaySign(cfg, core, p, epochNow) || Blocked(core, m, c) then Idle
    else if result.ScreenerPass? && CapReached(cfg, core, m, c) then Idle
    else if !result.passes then Idle
    else if result.ScreenerPass? then
      Drafted(BuildDraft(cfg, core, p, c, true, cfg.crypto.rescore(p.submit.patchBytes, 0), p.submit.parentStateRoot))
    else
      var bytes := cfg.crypto.rescore(p.submit.patchBytes, result.scoreDelta);
      match cfg.crypto.applyPatch(p.parentStateSnapshot, bytes)
      case None => Idle
      case Some(next) => Drafted(BuildDraft(cfg, core, p, c, false, bytes, cfg.crypto.merkle(next)))
  }

  /** The reservation table is touched once the counters are read, even if the submit is rejected. */
  function BeginFinishCore(cfg: Config, core: Core, p: Prepared, c: Counters, result: EvalResult,
                           epochNow: Option<nat>): Core {
    if result.Reject? then core
    else if (p.submit.parentStateRoot, p.originalPatchHash) in core.submitDedup || core.frozen
         || core.freezeGeneration != p.freezeGeneration || core.liveRoot != p.rootAtEvaluation then core
    else if epochNow.None? then core.(signingEnabled := false)
    else if epochNow.value != cfg.epoch then core
    else AfterCounters(core, p.submit.miner, c)
  }

  function Signed(cfg: Config, d: Draft, hash: Option<Hash>): Receipt {
    Receipt(d.prepared.submit.miner, d.screener, d.solveIndex, d.prevReceiptHash, d.onReservation,
            d.prepared.submit.parentStateRoot, d.newStateRoot, d.signedPatchHash, d.prepared.originalPatchHash,
            d.prepared.now + cfg.receiptTtlSec, hash, d.prepared.freezeGeneration, d.sectionGeneration)
  }

  /** The bookkeeping after the signer answered. */
  function Record(cfg: Config, core: Core, d: Draft, hash: Option<Hash>): Core {
    var s, expiresAt := d.prepared.submit, d.prepared.now + cfg.receiptTtlSec;
    core.(reservations := core.reservations[s.miner := Reservation(d.solveIndex + 1, hash, expiresAt)],
          submitDedup := core.submitDedup[(s.parentStateRoot, d.prepared.originalPatchHash) := expiresAt],
          pending := if d.screener then core.pending
                     else core.pending[d.signedPatchHash :=
                       PendingReceipt(d.prepared.originalPatchHash, d.signedPatchHash, s.parentStateRoot,
                                      d.newStateRoot, d.compactPatchBytes, s.miner, expiresAt, Pending)])
  }

  // ── the machine ──────────────────────────────────────────────────────────────

  /** V4 accepts a receipt that continues the miner's chain and has not expired. */
  predicate Landable(w: World, i: nat)
    requires i < |w.signed|
  {
    var r := w.signed[i];
    var c := w.onChain(r.miner);
    r.solveIndex == c.nextIndex && r.prevReceiptHash == c.lastReceiptHash && r.expiresAt > w.clock
  }

  function Mined(onChain: Miner -> Counters, m: Miner, screener: bool, hash: Hash): Miner -> Counters {
    var c := onChain(m);
    var after := Counters(c.screenersThisEpoch + (if screener then 1 else 0), c.nextIndex + 1, hash);
    (x: Miner) => if x == m then after else onChain(x)
  }

  /** Steps that are not enabled change nothing. */
  function Next(cfg: Config, w: World, step: Step): World {
    match step
    case Clock(t) => if t >= w.clock then w.(clock := t) else w
    case TickBegin => if MutexFree(w) && !w.core.frozen then w.(ticking := true) else w
    case TickEnd(r) =>
      if w.ticking && r.now == w.clock then w.(core := Tick(cfg, w.core, r), ticking := false) else w
    case PrepareBegin(s) =>
      if !MutexFree(w) || !w.lane.Idle? then w
      else
        var swept := GcPending(w.core, w.clock);
        w.(core := swept, lane := if swept.frozen then Idle else Preparing(w.clock, s))
    case PrepareEnd(epochNow, ok) =>
      if !w.lane.Preparing? then w
      else
        var core := PrepareHealth(cfg, w.core, epochNow);
        w.(core := core, lane := Prepare(cfg, core, w.lane.now, w.lane.submit, epochNow, ok))
    case FinishBegin(result, epochNow) =>
      if !MutexFree(w) || !w.lane.Scoring? then w
      else
        var p := w.lane.prepared;
        var c := w.onChain(p.submit.miner);
        w.(core := BeginFinishCore(cfg, w.core, p, c, result, epochNow),
           lane := BeginFinish(cfg, w.core, p, c, result, epochNow))
    case FinishEnd(reply) =>
      if !w.lane.Drafted? then w
      else if reply.None? then w.(lane := Idle)
      else
        var d := w.lane.draft;
        w.(core := Record(cfg, w.core, d, reply.value), lane := Idle,
           signed := w.signed + [Signed(cfg, d, reply.value)])
    case Freeze => w.(core := w.core.(frozen := true, freezeGeneration := w.core.freezeGeneration + 1))
    case Unfreeze => w.(core := w.core.(frozen := false))
    case Land(i, hash) =>
      if i < |w.signed| && Landable(w, i)
      then w.(onChain := Mined(w.onChain, w.signed[i].miner, w.signed[i].screener, hash)) else w
    case ForeignLand(m, hash) => w.(onChain := Mined(w.onChain, m, false, hash))
  }

  function Run(cfg: Config, w: World, steps: seq<Step>): World {
    if steps == [] then w
    else Next(cfg, Run(cfg, w, steps[..|steps| - 1]), steps[|steps| - 1])
  }

  function Start(core: Core, clock: int, onChain: Miner -> Counters): World {
    World(core, false, Idle, clock, onChain, [])
  }

  // ── reservations: solve indices of unexpired receipts ────────────────────────

  predicate Live(w: World, i: nat)
    requires i < |w.signed|
  {
    w.signed[i].expiresAt > w.clock
  }

  /** The position of the miner's newest signed receipt, or -1. */
  function NewestOf(signed: seq<Receipt>, m: Miner): (i: int)
    ensures -1 <= i < |signed|
    ensures i >= 0 ==> signed[i].miner == m
    ensures forall j :: i < j < |signed| ==> signed[j].miner != m
  {
    if signed == [] then -1
    else if signed[|signed| - 1].miner == m then |signed| - 1
    else NewestOf(signed[..|signed| - 1], m)
  }

  /** A live receipt's index is behind the chain, or behind a reservation that outlives it. */
  ghost predicate Covered(w: World, i: nat)
    requires i < |w.signed|
  {
    var r := w.signed[i];
    r.solveIndex < w.onChain(r.miner).nextIndex ||
    (r.miner in w.core.reservations &&
     r.solveIndex < w.core.reservations[r.miner].nextIndex && r.expiresAt <= w.core.reservations[r.miner].expiresAt)
  }

  /** A reservation is the miner's newest receipt, waiting to land. */
  ghost predicate ReservationIsNewest(signed: seq<Receipt>, m: Miner, r: Reservation) {
    var i := NewestOf(signed, m);
    i >= 0 && r.nextIndex == signed[i].solveIndex + 1 && r.lastReceiptHash == signed[i].receiptHash
    && r.expiresAt == signed[i].expiresAt
  }

  ghost predicate ReservationsNewest(signed: seq<Receipt>, reservations: map<Miner, Reservation>) {
    forall m :: m in reservations ==> ReservationIsNewest(signed, m, reservations[m])
  }

  ghost predicate AllContinue(signed: seq<Receipt>) {
    forall j :: 0 <= j < |signed| ==> Continues(signed, j)
  }

  /** Receipt j was built on a reservation: it continues the miner's previous receipt. */
  ghost predicate Continues(signed: seq<Receipt>, j: nat)
    requires j < |signed|
  {
    signed[j].onReservation ==>
      var i := NewestOf(signed[..j], signed[j].miner);
      i >= 0 && signed[i].receiptHash == Some(signed[j].prevReceiptHash)
        && signed[j].solveIndex == signed[i].solveIndex + 1
  }

  ghost predicate AheadOfLive(w: World, m: Miner, solveIndex: nat) {
    forall i :: 0 <= i < |w.signed| && w.signed[i].miner == m && Live(w, i) ==> w.signed[i].solveIndex < solveIndex
  }

  ghost predicate DraftContinues(w: World, d: Draft) {
    d.onReservation ==>
      var i := NewestOf(w.signed, d.prepared.submit.miner);
      i >= 0 && w.signed[i].receiptHash == Some(d.prevReceiptHash) && d.solveIndex == w.signed[i].solveIndex + 1
  }

  /** Submits are timed in arrival order, so expiries never go down. */
  ghost predicate NoLaterExpiry(cfg: Config, w: World, now: int) {
    now <= w.clock && forall i :: 0 <= i < |w.signed| ==> w.signed[i].expiresAt <= now + cfg.receiptTtlSec
  }

  ghost predicate LaneTimed(cfg: Config, w: World) {
    match w.lane
    case Idle => NoLaterExpiry(cfg, w, w.clock)
    case Preparing(now, _) => NoLaterExpiry(cfg, w, now)
    case Scoring(p) => NoLaterExpiry(cfg, w, p.now)
    case Drafted(d) => NoLaterExpiry(cfg, w, d.prepared.now)
  }

  ghost predicate DraftOrdered(w: World) {
    w.lane.Drafted? ==>
      AheadOfLive(w, w.lane.draft.prepared.submit.miner, w.lane.draft.solveIndex) && DraftContinues(w, w.lane.draft)
  }

  ghost predicate Ordered(w: World) {
    forall i, j :: 0 <= i < j < |w.signed| && w.signed[i].miner == w.signed[j].miner && Live(w, i) && Live(w, j)
      ==> w.signed[i].solveIndex < w.signed[j].solveIndex
  }

  ghost predicate AllCovered(w: World) {
    forall i :: 0 <= i < |w.signed| && Live(w, i) ==> Covered(w, i)
  }

  ghost predicate Reserving(cfg: Config, w: World) {
    && Ordered(w) && AllCovered(w) && LaneTimed(cfg, w) && DraftOrdered(w)
    && ReservationsNewest(w.signed, w.core.reservations) && AllContinue(w.signed)
  }

  /** What a step may do to the fields the reservation invariant reads, other than signing. */
  ghost predicate Quiet(w: World, v: World) {
    && v.signed == w.signed && v.clock >= w.clock
    && (forall m :: v.onChain(m).nextIndex >= w.onChain(m).nextIndex)
    && (forall m :: m in v.core.reservations ==>
          m in w.core.reservations && v.core.reservations[m] == w.core.reservations[m])
    && (forall m :: m in w.core.reservations && m !in v.core.reservations ==>
          w.core.reservations[m].expiresAt <= v.clock || w.core.reservations[m].nextIndex <= v.onChain(m).nextIndex)
  }

  lemma QuietKeepsReserving(cfg: Config, w: World, v: World)
    requires Reserving(cfg, w) && Quiet(w, v) && LaneTimed(cfg, v) && DraftOrdered(v)
    ensures Reserving(cfg, v)
  {
    forall i | 0 <= i < |v.signed| && Live(v, i)
      ensures Covered(v, i)
    {
      assert Live(w, i) && Covered(w, i);
    }
  }

  lemma DraftIsOrdered(cfg: Config, w: World, p: Prepared, c: Counters, d: Draft)
    requires Reserving(cfg, w) && c == w.onChain(p.submit.miner)
    requires !Blocked(w.core, p.submit.miner, c)
    requires d.prepared == p && d.onReservation == Chaining(w.core, p.submit.miner, c)
    requires d.solveIndex == (if d.onReservation then w.core.reservations[p.submit.miner].nextIndex else c.nextIndex)
    requires d.onReservation ==> d.prevReceiptHash == w.core.reservations[p.submit.miner].lastReceiptHash.value
    ensures AheadOfLive(w, p.submit.miner, d.solveIndex) && DraftContinues(w, d)
  {
    var m := p.submit.miner;
    forall i | 0 <= i < |w.signed| && w.signed[i].miner == m && Live(w, i)
      ensures w.signed[i].solveIndex < d.solveIndex
    {
      assert Covered(w, i);
    }
    if d.onReservation {
      assert ReservationIsNewest(w.signed, m, w.core.reservations[m]);
    }
  }

  lemma {:induction false} NewestOfOthers(signed: seq<Receipt>, r: Receipt, m: Miner)
    ensures NewestOf(signed + [r], m) == if r.miner == m then |signed| else NewestOf(signed, m)
  {
    assert (signed + [r])[..|signed|] == signed;
  }

  lemma SignCovers(cfg: Config, w: World, hash: Option<Hash>, v: World)
    requires Ordered(w) && AllCovered(w) && LaneTimed(cfg, w) && DraftOrdered(w)
    requires w.lane.Drafted? && v == Next(cfg, w, FinishEnd(Some(hash)))
    ensures Ordered(v) && AllCovered(v) && LaneTimed(cfg, v)
  {
    var n := |w.signed|;
    assert forall i :: 0 <= i < n ==> v.signed[i] == w.signed[i];
    forall i | 0 <= i < |v.signed| && Live(v, i)
      ensures Covered(v, i)
    {
      if i < n {
        assert Live(w, i) && Covered(w, i);
      }
    }
  }

  lemma SignContinues(signed: seq<Receipt>, reservations: map<Miner, Reservation>, r: Receipt)
    requires ReservationsNewest(signed, reservations) && AllContinue(signed)
    requires Continues(signed + [r], |signed|)
    ensures ReservationsNewest(signed + [r],
                               reservations[r.miner := Reservation(r.solveIndex + 1, r.receiptHash, r.expiresAt)])
    ensures AllContinue(signed + [r])
  {
    var grown := signed + [r];
    var updated := reservations[r.miner := Reservation(r.solveIndex + 1, r.receiptHash, r.expiresAt)];
    forall m | m in updated
      ensures ReservationIsNewest(grown, m, updated[m])
    {
      NewestOfOthers(signed, r, m);
      assert m != r.miner ==> ReservationIsNewest(signed, m, reservations[m]);
    }
    forall j | 0 <= j < |signed|
      ensures Continues(grown, j)
    {
      assert Continues(signed, j);
      assert grown[..j] == signed[..j];
    }
  }

  lemma SignedContinues(cfg: Config, w: World, hash: Option<Hash>)
    requires DraftOrdered(w) && w.lane.Drafted?
    ensures Continues(w.signed + [Signed(cfg, w.lane.draft, hash)], |w.signed|)
  {
    assert (w.signed + [Signed(cfg, w.lane.draft, hash)])[..|w.signed|] == w.signed;
  }

  lemma SignKeepsReserving(cfg: Config, w: World, hash: Option<Hash>)
    requires Reserving(cfg, w) && w.lane.Drafted?
    ensures Reserving(cfg, Next(cfg, w, FinishEnd(Some(hash))))
  {
    SignCovers(cfg, w, hash, Next(cfg, w, FinishEnd(Some(hash))));
    SignedContinues(cfg, w, hash);
    SignContinues(w.signed, w.core.reservations, Signed(cfg, w.lane.draft, hash));
  }

  lemma FinishBeginReserves(cfg: Config, w: World, result: EvalResult, epochNow: Option<nat>)
    requires Reserving(cfg, w) && w.lane.Scoring? && MutexFree(w)
    ensures Reserving(cfg, Next(cfg, w, FinishBegin(result, epochNow)))
  {
    var v := Next(cfg, w, FinishBegin(result, epochNow));
    var p := w.lane.prepared;
    if v.lane.Drafted? {
      DraftIsOrdered(cfg, w, p, w.onChain(p.submit.miner), v.lane.draft);
    }
    QuietKeepsReserving(cfg, w, v);
  }

  lemma PrepareReserves(cfg: Config, w: World, step: Step)
    requires Reserving(cfg, w) && (step.PrepareBegin? || step.PrepareEnd?)
    ensures Reserving(cfg, Next(cfg, w, step))
  {
    QuietKeepsReserving(cfg, w, Next(cfg, w, step));
  }

  lemma ClockReserves(cfg: Config, w: World, step: Step)
    requires Reserving(cfg, w) && step.Clock?
    ensures Reserving(cfg, Next(cfg, w, step))
  {
    QuietKeepsReserving(cfg, w, Next(cfg, w, step));
  }

  lemma LandReserves(cfg: Config, w: World, step: Step)
    requires Reserving(cfg, w) && (step.Land? || step.ForeignLand?)
    ensures Reserving(cfg, Next(cfg, w, step))
  {
    QuietKeepsReserving(cfg, w, Next(cfg, w, step));
  }

  lemma CoreStepReserves(cfg: Config, w: World, step: Step)
    requires Reserving(cfg, w) && (step.TickBegin? || step.TickEnd? || step.Freeze? || step.Unfreeze?)
    ensures Reserving(cfg, Next(cfg, w, step))
  {
    QuietKeepsReserving(cfg, w, Next(cfg, w, step));
  }

  lemma FinishEndReserves(cfg: Config, w: World, reply: Option<Option<Hash>>)
    requires Reserving(cfg, w)
    ensures Reserving(cfg, Next(cfg, w, FinishEnd(reply)))
  {
    if w.lane.Drafted? && reply.Some? {
      SignKeepsReserving(cfg, w, reply.value);
    } else {
      QuietKeepsReserving(cfg, w, Next(cfg, w, FinishEnd(reply)));
    }
  }

  /** Every step keeps the reservation invariant. */
  lemma StepKeepsReserving(cfg: Config, w: World, step: Step)
    requires Reserving(cfg, w)
    ensures Reserving(cfg, Next(cfg, w, step))
  {
    match step
    case FinishBegin(result, epochNow) =>
      if w.lane.Scoring? && MutexFree(w) {
        FinishBeginReserves(cfg, w, result, epochNow);
      }
    case FinishEnd(reply) => FinishEndReserves(cfg, w, reply);
    case PrepareBegin(_) => PrepareReserves(cfg, w, step);
    case PrepareEnd(_, _) => PrepareReserves(cfg, w, step);
    case Clock(_) => ClockReserves(cfg, w, step);
    case Land(_, _) => LandReserves(cfg, w, step);
    case ForeignLand(_, _) => LandReserves(cfg, w, step);
    case _ => CoreStepReserves(cfg, w, step);
  }

  lemma {:induction false} RunReserves(cfg: Config, w: World, steps: seq<Step>)
    requires Reserving(cfg, w)
    ensures Reserving(cfg, Run(cfg, w, steps))
  {
    if steps != [] {
      RunReserves(cfg, w, steps[..|steps| - 1]);
      StepKeepsReserving(cfg, Run(cfg, w, steps[..|steps| - 1]), steps[|steps| - 1]);
    }
  }

  /** In every run, unexpired receipts of one miner never share a solve index (indeed they increase
      in signing order), and a receipt built on a reservation continues the miner's previous one. */
  lemma SolveIndicesNeverShared(cfg: Config, core: Core, clock: int, onChain: Miner -> Counters, steps: seq<Step>)
    requires core.reservations == map[]
    ensures var w := Run(cfg, Start(core, clock, onChain), steps);
            Ordered(w) && AllContinue(w.signed)
  {
    RunReserves(cfg, Start(core, clock, onChain), steps);
  }

  // ── the screener cap ─────────────────────────────────────────────────────────

  /** Signed screener receipts that could still land. */
  function LiveScreeners(w: World, m: Miner): set<nat> {
    set i: nat | 0 <= i < |w.signed| && w.signed[i].miner == m && w.signed[i].screener
                 && Live(w, i) && w.signed[i].solveIndex >= w.onChain(m).nextIndex
  }

  function ScreenerLoad(w: World, m: Miner): nat {
    w.onChain(m).screenersThisEpoch + |LiveScreeners(w, m)|
  }

  ghost predicate Capped(cfg: Config, w: World) {
    && (forall m :: ScreenerLoad(w, m) <= cfg.perMinerScreenerCap)
    && (w.lane.Drafted? && w.lane.draft.screener ==>
          ScreenerLoad(w, w.lane.draft.prepared.submit.miner) < cfg.perMinerScreenerCap)
  }

  lemma SubsetNoLarger(a: set<nat>, b: set<nat>)
    requires a <= b
    ensures |a| <= |b|
  {
    assert |b| == |a| + |b - a| by {
      assert a + (b - a) == b;
    }
  }

  /** Distinct positions with distinct values in [lo, hi) are at most hi - lo. */
  lemma {:induction false} AtMostSpan(s: set<nat>, index: seq<nat>, lo: nat, hi: nat)
    requires forall i :: i in s ==> i < |index| && lo <= index[i] < hi
    requires forall i, j :: i in s && j in s && i != j ==> index[i] != index[j]
    requires lo <= hi
    ensures |s| <= hi - lo
    decreases hi - lo
  {
    if lo == hi {
      assert s == {};
    } else if i :| i in s && index[i] == hi - 1 {
      AtMostSpan(s - {i}, index, lo, hi - 1);
    } else {
      AtMostSpan(s, index, lo, hi - 1);
    }
  }

  /** The reservation gap counts every receipt that could still land. */
  lemma GapCoversLive(cfg: Config, w: World, m: Miner)
    requires Reserving(cfg, w)
    ensures |LiveScreeners(w, m)| <= ReservedGap(w.core, m, w.onChain(m))
  {
    var live, next := LiveScreeners(w, m), w.onChain(m).nextIndex;
    var index := seq(|w.signed|, i requires 0 <= i < |w.signed| => w.signed[i].solveIndex);
    forall i | i in live
      ensures next <= index[i] < next + ReservedGap(w.core, m, w.onChain(m))
    {
      assert Covered(w, i);
    }
    forall i, j | i in live && j in live && i != j
      ensures index[i] != index[j]
    {
      assert i < j || j < i;
    }
    AtMostSpan(live, index, next, next + ReservedGap(w.core, m, w.onChain(m)));
  }

  lemma LoadFalls(w: World, v: World, m: Miner)
    requires v.signed == w.signed && v.clock >= w.clock && v.onChain(m) == w.onChain(m)
    ensures ScreenerLoad(v, m) <= ScreenerLoad(w, m)
  {
    SubsetNoLarger(LiveScreeners(v, m), LiveScreeners(w, m));
  }

  lemma LoadFallsOnLanding(cfg: Config, w: World, i: nat, hash: Hash, m: Miner)
    requires i < |w.signed| && Landable(w, i)
    ensures ScreenerLoad(Next(cfg, w, Land(i, hash)), m) <= ScreenerLoad(w, m)
  {
    var v := Next(cfg, w, Land(i, hash));
    if m == w.signed[i].miner {
      if w.signed[i].screener {
        assert i in LiveScreeners(w, m);
        assert LiveScreeners(v, m) <= LiveScreeners(w, m) - {i};
        SubsetNoLarger(LiveScreeners(v, m), LiveScreeners(w, m) - {i});
      } else {
        SubsetNoLarger(LiveScreeners(v, m), LiveScreeners(w, m));
      }
    } else {
      LoadFalls(w, v, m);
    }
  }

  lemma LoadFallsOnForeign(cfg: Config, w: World, miner: Miner, hash: Hash, m: Miner)
    ensures ScreenerLoad(Next(cfg, w, ForeignLand(miner, hash)), m) <= ScreenerLoad(w, m)
  {
    var v := Next(cfg, w, ForeignLand(miner, hash));
    SubsetNoLarger(LiveScreeners(v, m), LiveScreeners(w, m));
  }

  lemma LoadOnSigning(cfg: Config, w: World, hash: Option<Hash>, m: Miner)
    requires w.lane.Drafted?
    ensures var d := w.lane.draft;
            ScreenerLoad(Next(cfg, w, FinishEnd(Some(hash))), m) <=
            ScreenerLoad(w, m) + (if d.screener && d.prepared.submit.miner == m then 1 else 0)
  {
    var d, v := w.lane.draft, Next(cfg, w, FinishEnd(Some(hash)));
    var added := if d.screener && d.prepared.submit.miner == m then {|w.signed|} else {};
    assert LiveScreeners(v, m) <= LiveScreeners(w, m) + added;
    SubsetNoLarger(LiveScreeners(v, m), LiveScreeners(w, m) + added);
  }

  /** Steps that neither sign nor mine leave the chain's counters alone. */
  lemma QuietLoad(cfg: Config, w: World, step: Step, m: Miner)
    requires !step.Land? && !step.ForeignLand? && !step.FinishEnd?
    ensures ScreenerLoad(Next(cfg, w, step), m) <= ScreenerLoad(w, m)
  {
    LoadFalls(w, Next(cfg, w, step), m);
  }

  lemma StepLoad(cfg: Config, w: World, step: Step, m: Miner)
    ensures ScreenerLoad(Next(cfg, w, step), m) <=
            ScreenerLoad(w, m) +
            (if step.FinishEnd? && w.lane.Drafted? && w.lane.draft.screener
             && w.lane.draft.prepared.submit.miner == m then 1 else 0)
  {
    match step
    case Land(i, hash) => if i < |w.signed| && Landable(w, i) { LoadFallsOnLanding(cfg, w, i, hash, m); }
    case ForeignLand(x, hash) => LoadFallsOnForeign(cfg, w, x, hash, m);
    case FinishEnd(reply) =>
      if w.lane.Drafted? && reply.Some? {
        LoadOnSigning(cfg, w, reply.value, m);
      } else {
        LoadFalls(w, Next(cfg, w, step), m);
      }
    case _ => QuietLoad(cfg, w, step, m);
  }

  lemma DraftUnderCap(cfg: Config, w: World, step: Step)
    requires Reserving(cfg, w) && !w.lane.Drafted?
    requires Next(cfg, w, step).lane.Drafted? && Next(cfg, w, step).lane.draft.screener
    ensures ScreenerLoad(w, Next(cfg, w, step).lane.draft.prepared.submit.miner) < cfg.perMinerScreenerCap
  {
    assert step.FinishBegin?;
    GapCoversLive(cfg, w, w.lane.prepared.submit.miner);
  }

  lemma StepKeepsCapped(cfg: Config, w: World, step: Step)
    requires Reserving(cfg, w) && Capped(cfg, w)
    ensures Capped(cfg, Next(cfg, w, step))
  {
    var v := Next(cfg, w, step);
    forall m
      ensures ScreenerLoad(v, m) <= cfg.perMinerScreenerCap
    {
      StepLoad(cfg, w, step, m);
    }
    if v.lane.Drafted? && v.lane.draft.screener {
      StepLoad(cfg, w, step, v.lane.draft.prepared.submit.miner);
      if !w.lane.Drafted? {
        DraftUnderCap(cfg, w, step);
      }
    }
  }

  lemma {:induction false} RunCapped(cfg: Config, w: World, steps: seq<Step>)
    requires Reserving(cfg, w) && Capped(cfg, w)
    ensures Capped(cfg, Run(cfg, w, steps))
  {
    if steps != [] {
      RunCapped(cfg, w, steps[..|steps| - 1]);
      RunReserves(cfg, w, steps[..|steps| - 1]);
      StepKeepsCapped(cfg, Run(cfg, w, steps[..|steps| - 1]), steps[|steps| - 1]);
    }
  }

  /** In every run of one process, a miner's landed screener passes plus its signed screener
      receipts that could still land never exceed the cap. */
  lemma ScreenerCapHolds(cfg: Config, core: Core, clock: int, onChain: Miner -> Counters, steps: seq<Step>, m: Miner)
    requires core.reservations == map[]
    requires forall x :: onChain(x).screenersThisEpoch <= cfg.perMinerScreenerCap
    ensures ScreenerLoad(Run(cfg, Start(core, clock, onChain), steps), m) <= cfg.perMinerScreenerCap
  {
    var w := Start(core, clock, onChain);
    assert forall x :: LiveScreeners(w, x) == {};
    RunCapped(cfg, w, steps);
  }

  // ── signing and freezing ─────────────────────────────────────────────────────

  /** A draft names the live root, and no freeze() fell between the end of its prepare section and
      the start of its signing section. */
  ghost predicate Exclusive(w: World) {
    && (w.lane.Preparing? || w.lane.Drafted? ==> !w.ticking)
    && (w.lane.Scoring? ==> w.lane.prepared.submit.parentStateRoot == w.lane.prepared.rootAtEvaluation)
    && (w.lane.Drafted? ==> w.lane.draft.prepared.submit.parentStateRoot == w.core.liveRoot
                            && w.lane.draft.sectionGeneration == w.lane.draft.prepared.freezeGeneration)
    && (forall i :: 0 <= i < |w.signed| ==> w.signed[i].preparedGeneration == w.signed[i].sectionGeneration)
  }

  lemma StepKeepsExclusive(cfg: Config, w: World, step: Step)
    requires Exclusive(w)
    ensures Exclusive(Next(cfg, w, step))
  {
  }

  lemma {:induction false} RunExclusive(cfg: Config, w: World, steps: seq<Step>)
    requires Exclusive(w)
    ensures Exclusive(Run(cfg, w, steps))
  {
    if steps != [] {
      RunExclusive(cfg, w, steps[..|steps| - 1]);
      StepKeepsExclusive(cfg, Run(cfg, w, steps[..|steps| - 1]), steps[|steps| - 1]);
    }
  }

  /** Whatever happened before, a receipt signed by the next step names the live root at that moment. */
  lemma SignedNamesLiveRoot(cfg: Config, core: Core, clock: int, onChain: Miner -> Counters, steps: seq<Step>,
                            step: Step)
    ensures var w := Run(cfg, Start(core, clock, onChain), steps);
            var v := Next(cfg, w, step);
            |v.signed| != |w.signed| ==>
              v.signed[..|v.signed| - 1] == w.signed && v.core.liveRoot == w.core.liveRoot &&
              var r := v.signed[|v.signed| - 1];
              r.parentStateRoot == w.core.liveRoot && r.preparedGeneration == r.sectionGeneration
  {
    RunExclusive(cfg, Start(core, clock, onChain), steps);
  }

  predicate LiveUnchanged(a: Core, b: Core) {
    a.liveState == b.liveState && a.liveRoot == b.liveRoot && a.lastTransitionIndex == b.lastTransitionIndex
    && a.snapshots == b.snapshots
  }

  lemma FrozenStep(cfg: Config, w: World, step: Step)
    requires w.core.frozen && MutexFree(w) && !step.Unfreeze?
    ensures var v := Next(cfg, w, step);
            v.core.frozen && MutexFree(v) && v.signed == w.signed && LiveUnchanged(w.core, v.core)
  {
  }

  /** Once freeze() has resolved (the mutex is free) nothing is signed and live state does not move
      until unfreeze(). */
  lemma {:induction false} FrozenStandsStill(cfg: Config, w: World, steps: seq<Step>)
    requires w.core.frozen && MutexFree(w)
    requires forall i :: 0 <= i < |steps| ==> !steps[i].Unfreeze?
    ensures var v := Run(cfg, w, steps);
            v.core.frozen && MutexFree(v) && v.signed == w.signed && LiveUnchanged(w.core, v.core)
  {
    if steps != [] {
      FrozenStandsStill(cfg, w, steps[..|steps| - 1]);
      FrozenStep(cfg, Run(cfg, w, steps[..|steps| - 1]), steps[|steps| - 1]);
    }
  }

  /** Whatever is prepared, drafted or signed since position `n` has this generation or a later one,
      but for the submit that was being scored. */
  ghost predicate Superseded(w: World, scored: Lane, generation: nat, n: nat) {
    && w.core.freezeGeneration >= generation && n <= |w.signed|
    && (w.lane.Scoring? ==> w.lane == scored || w.lane.prepared.freezeGeneration >= generation)
    && (w.lane.Drafted? ==> w.lane.draft.prepared.freezeGeneration >= generation)
    && (forall i :: n <= i < |w.signed| ==> w.signed[i].preparedGeneration >= generation)
  }

  lemma SupersededStep(cfg: Config, w: World, scored: Lane, generation: nat, n: nat, step: Step)
    requires Superseded(w, scored, generation, n) && scored.Scoring? && generation > scored.prepared.freezeGeneration
    ensures Superseded(Next(cfg, w, step), scored, generation, n)
  {
  }

  /** A submit that was being scored when freeze() was called never signs, in any run, unfreeze() and
      other submits included: every receipt signed since was prepared under a later generation. */
  lemma {:induction false} PreparedBeforeFreezeNeverSigns(cfg: Config, w: World, steps: seq<Step>)
    requires w.lane.Scoring? && w.core.freezeGeneration > w.lane.prepared.freezeGeneration
    ensures var v := Run(cfg, w, steps);
            && Superseded(v, w.lane, w.core.freezeGeneration, |w.signed|)
            && (forall i :: |w.signed| <= i < |v.signed| ==>
                  v.signed[i].preparedGeneration > w.lane.prepared.freezeGeneration)
  {
    if steps != [] {
      var n := |steps| - 1;
      PreparedBeforeFreezeNeverSigns(cfg, w, steps[..n]);
      SupersededStep(cfg, Run(cfg, w, steps[..n]), w.lane, w.core.freezeGeneration, |w.signed|, steps[n]);
    }
  }

  /** The generation is captured at the end of the prepare section, so a freeze() that falls inside
      that section, followed by unfreeze(), does not stop the submit. */
  lemma FreezeInsidePrepareDoesNotStop(cfg: Config, w: World, s: Submit, reply: Option<Hash>)
    requires w.lane.Idle? && !w.ticking && !w.core.frozen && w.core.signingEnabled
    requires w.core.submitDedup == map[] && w.core.reservations == map[] && w.core.pending == map[]
    requires s.parentStateRoot == w.core.liveRoot && cfg.crypto.wireParent(s.patchBytes) == s.parentStateRoot
    requires cfg.crypto.applyPatch(w.core.liveState, s.patchBytes).Some?
    requires w.onChain(s.miner).screenersThisEpoch < cfg.perMinerScreenerCap
    ensures var steps := [PrepareBegin(s), Freeze, PrepareEnd(Some(cfg.epoch), true), Unfreeze,
                          FinishBegin(ScreenerPass(true), Some(cfg.epoch)), FinishEnd(Some(reply))];
            |Run(cfg, w, steps).signed| == |w.signed| + 1
  {
    var steps := [PrepareBegin(s), Freeze, PrepareEnd(Some(cfg.epoch), true), Unfreeze,
                  FinishBegin(ScreenerPass(true), Some(cfg.epoch)), FinishEnd(Some(reply))];
    var w4 := FrozenWhilePreparing(cfg, w, s);
    assert Next(cfg, w4, steps[4]).lane.Drafted?;
    RunUnfold6(cfg, w, steps);
  }

  lemma FrozenWhilePreparing(cfg: Config, w: World, s: Submit) returns (w4: World)
    requires w.lane.Idle? && !w.ticking && !w.core.frozen && w.core.signingEnabled
    requires w.core.submitDedup == map[] && w.core.reservations == map[] && w.core.pending == map[]
    requires s.parentStateRoot == w.core.liveRoot && cfg.crypto.wireParent(s.patchBytes) == s.parentStateRoot
    requires cfg.crypto.applyPatch(w.core.liveState, s.patchBytes).Some?
    ensures var w2 := Next(cfg, Next(cfg, w, PrepareBegin(s)), Freeze);
            w4 == Next(cfg, Next(cfg, w2, PrepareEnd(Some(cfg.epoch), true)), Unfreeze)
    ensures w4.lane.Scoring? && w4.lane.prepared.submit == s && MutexFree(w4) && w4.signed == w.signed
            && w4.onChain == w.onChain
    ensures w4.core.submitDedup == map[] && w4.core.reservations == map[]
    ensures MaySign(cfg, w4.core, w4.lane.prepared, Some(cfg.epoch))
  {
    var w1 := Next(cfg, w, PrepareBegin(s));
    var w3 := Next(cfg, Next(cfg, w1, Freeze), PrepareEnd(Some(cfg.epoch), true));
    assert w3.lane.Scoring?;
    w4 := Next(cfg, w3, Unfreeze);
  }

  lemma RunUnfold6(cfg: Config, w: World, steps: seq<Step>)
    requires |steps| == 6
    ensures Run(cfg, w, steps) ==
            Next(cfg, Next(cfg, Next(cfg, Next(cfg, Next(cfg, Next(cfg, w, steps[0]), steps[1]), steps[2]), steps[3]),
                           steps[4]), steps[5])
  {
    assert steps[..5][..4] == steps[..4] && steps[..4][..3] == steps[..3] && steps[..3][..2] == steps[..2];
    assert steps[..2][..1] == steps[..1] && steps[..1][..0] == [];
    assert Run(cfg, w, steps[..1]) == Next(cfg, w, steps[0]);
    assert Run(cfg, w, steps[..2]) == Next(cfg, Run(cfg, w, steps[..1]), steps[1]);
    assert Run(cfg, w, steps[..3]) == Next(cfg, Run(cfg, w, steps[..2]), steps[2]);
    assert Run(cfg, w, steps[..4]) == Next(cfg, Run(cfg, w, steps[..3]), steps[3]);
    assert Run(cfg, w, steps[..5]) == Next(cfg, Run(cfg, w, steps[..4]), steps[4]);
  }

  // ── every run ────────────────────────────────────────────────────────────────

  /** A draft state advance leads from its parent root to its new root. */
  ghost predicate LaneSound(cfg: Config, w: World) {
    match w.lane
    case Scoring(p) =>
      cfg.crypto.merkle(p.parentStateSnapshot) == p.rootAtEvaluation && p.submit.parentStateRoot == p.rootAtEvaluation
    case Drafted(d) => !d.screener ==> DraftSound(cfg, d)
    case _ => true
  }

  ghost predicate DraftSound(cfg: Config, d: Draft) {
    var next := cfg.crypto.applyPatch(d.prepared.parentStateSnapshot, d.compactPatchBytes);
    && cfg.crypto.merkle(d.prepared.parentStateSnapshot) == d.prepared.submit.parentStateRoot
    && next.Some? && cfg.crypto.merkle(next.value) == d.newStateRoot
    && d.signedPatchHash == cfg.crypto.patchHash(d.compactPatchBytes)
  }

  lemma RecordKeeps(cfg: Config, core: Core, applied: seq<Event>, d: Draft, hash: Option<Hash>)
    requires Recorded(cfg, core, applied) && (!d.screener ==> DraftSound(cfg, d))
    ensures Recorded(cfg, Record(cfg, core, d, hash), applied)
  {
    if !d.screener {
      var p := Record(cfg, core, d, hash).pending[d.signedPatchHash];
      assert LeadsTo(cfg, d.prepared.parentStateSnapshot, p);
      assert ReceiptSound(cfg, p, applied);
    }
  }

  lemma StepLane(cfg: Config, w: World, applied: seq<Event>, step: Step)
    requires Replays(cfg, w.core, applied) && LaneSound(cfg, w)
    ensures LaneSound(cfg, Next(cfg, w, step))
  {
  }

  /** The history after a step: only a tick moves it. */
  function StepHistory(cfg: Config, w: World, applied: seq<Event>, step: Step): seq<Event> {
    if step.TickEnd? && w.ticking && step.r.now == w.clock then TickHistory(cfg, w.core, applied, step.r) else applied
  }

  function RunHistory(cfg: Config, w: World, applied: seq<Event>, steps: seq<Step>): seq<Event> {
    if steps == [] then applied
    else
      var n := |steps| - 1;
      StepHistory(cfg, Run(cfg, w, steps[..n]), RunHistory(cfg, w, applied, steps[..n]), steps[n])
  }

  lemma StepRecords(cfg: Config, w: World, applied: seq<Event>, step: Step)
    requires Binding(cfg) && cfg.crypto.merkle(cfg.parentState) == cfg.parentRoot
    requires Recorded(cfg, w.core, applied) && LaneSound(cfg, w)
    ensures Recorded(cfg, Next(cfg, w, step).core, StepHistory(cfg, w, applied, step))
  {
    match step
    case TickEnd(r) => TickRecords(cfg, w.core, applied, r);
    case PrepareBegin(_) => GcRecords(cfg, w.core, applied, w.clock);
    case FinishEnd(reply) =>
      if w.lane.Drafted? && reply.Some? {
        RecordKeeps(cfg, w.core, applied, w.lane.draft, reply.value);
      }
    case _ =>
  }

  lemma {:induction false} RunRecords(cfg: Config, w: World, applied: seq<Event>, steps: seq<Step>)
    requires Binding(cfg) && cfg.crypto.merkle(cfg.parentState) == cfg.parentRoot
    requires Recorded(cfg, w.core, applied) && LaneSound(cfg, w)
    ensures Recorded(cfg, Run(cfg, w, steps).core, RunHistory(cfg, w, applied, steps))
            && LaneSound(cfg, Run(cfg, w, steps))
  {
    if steps != [] {
      var n := |steps| - 1;
      var before, history := Run(cfg, w, steps[..n]), RunHistory(cfg, w, applied, steps[..n]);
      RunRecords(cfg, w, applied, steps[..n]);
      StepLane(cfg, before, history, steps[n]);
      StepRecords(cfg, before, history, steps[n]);
    }
  }

  /** A process after a successful boot and a run. */
  function Booted(cfg: Config, wiringOk: bool, head: nat, batch: seq<Event>, registry: (Hash, nat),
                  clock: int, onChain: Miner -> Counters): World
    requires Boot(cfg, wiringOk, head, batch, registry).Some?
  {
    Start(Boot(cfg, wiringOk, head, batch, registry).value, clock, onChain)
  }

  /** After any run whatever of ticks, reorgs, faults, submits, freezes and landings, with no assumption
      on what the nodes answer: the live state, root and index are the fold of a history, the at most 64
      snapshots are its linked tail, and a receipt marked confirmed has its event, with its new root, in
      that history. */
  lemma EveryRunReplays(
    cfg: Config, wiringOk: bool, head: nat, batch: seq<Event>, registry: (Hash, nat),
    clock: int, onChain: Miner -> Counters, steps: seq<Step>)
    requires Binding(cfg) && Boot(cfg, wiringOk, head, batch, registry).Some?
    ensures var w := Booted(cfg, wiringOk, head, batch, registry, clock, onChain);
            var (core, history) := (Run(cfg, w, steps).core, RunHistory(cfg, w, BootHistory(cfg, batch), steps));
            && Replays(cfg, core, history) && ReceiptsSound(cfg, core.pending, history)
            && (core.snapshots == [] ==> history == [] && core.liveState == cfg.parentState)
  {
    BootRecords(cfg, wiringOk, head, batch, registry);
    RunRecords(cfg, Booted(cfg, wiringOk, head, batch, registry, clock, onChain), BootHistory(cfg, batch), steps);
  }

  // ── what is signed can land ──────────────────────────────────────────────────

  /** A signed state advance was built from bytes that lead from its parent root to its new root. */
  ghost predicate ReceiptLeads(cfg: Config, r: Receipt) {
    exists s, bytes :: Leads(cfg, s, bytes, r.parentStateRoot, r.patchHash, r.newStateRoot)
  }

  ghost predicate AllLead(cfg: Config, signed: seq<Receipt>) {
    forall i :: 0 <= i < |signed| && !signed[i].screener ==> ReceiptLeads(cfg, signed[i])
  }

  lemma StepLeads(cfg: Config, w: World, step: Step)
    requires AllLead(cfg, w.signed) && LaneSound(cfg, w)
    ensures AllLead(cfg, Next(cfg, w, step).signed)
  {
    if step.FinishEnd? && w.lane.Drafted? && step.reply.Some? && !w.lane.draft.screener {
      var d := w.lane.draft;
      var r := Signed(cfg, d, step.reply.value);
      assert Leads(cfg, d.prepared.parentStateSnapshot, d.compactPatchBytes,
                   r.parentStateRoot, r.patchHash, r.newStateRoot);
      assert ReceiptLeads(cfg, r);
    }
  }

  lemma {:induction false} RunLeads(cfg: Config, w: World, applied: seq<Event>, steps: seq<Step>)
    requires Binding(cfg) && cfg.crypto.merkle(cfg.parentState) == cfg.parentRoot
    requires Recorded(cfg, w.core, applied) && LaneSound(cfg, w) && AllLead(cfg, w.signed)
    ensures AllLead(cfg, Run(cfg, w, steps).signed)
  {
    if steps != [] {
      var n := |steps| - 1;
      RunLeads(cfg, w, applied, steps[..n]);
      RunRecords(cfg, w, applied, steps[..n]);
      StepLeads(cfg, Run(cfg, w, steps[..n]), steps[n]);
    }
  }

  /** The log is the receipt's advance, next on the live root, with the configured pins. */
  predicate NextIs(cfg: Config, core: Core, log: Log, r: Receipt) {
    NamesNext(cfg, core, log, r.parentStateRoot, r.patchHash, r.newStateRoot)
  }

  /** Accepted, with the receipt's new root live; an entry still pending for it is confirmed. */
  ghost predicate Lands(cfg: Config, core: Core, ev: Event, r: Receipt) {
    var next := ApplyChainEvent(cfg, core, ev);
    && next.Some? && next.value.liveRoot == r.newStateRoot
    && (forall k :: k in core.pending && core.pending[k].state == Pending
                    && core.pending[k].parentRoot == r.parentStateRoot
                      && core.pending[k].signedPatchHash == r.patchHash ==>
          next.value.pending[k] == core.pending[k].(state := Confirmed))
  }

  lemma LandsAfterRun(cfg: Config, w: World, applied: seq<Event>, i: nat, ev: Event)
    requires Binding(cfg) && Replays(cfg, w.core, applied) && AllLead(cfg, w.signed)
    requires i < |w.signed| && !w.signed[i].screener && NextIs(cfg, w.core, ev.log, w.signed[i])
    ensures Lands(cfg, w.core, ev, w.signed[i])
  {
    var r := w.signed[i];
    assert ReceiptLeads(cfg, r);
    var s, bytes :| Leads(cfg, s, bytes, r.parentStateRoot, r.patchHash, r.newStateRoot);
    SignedAdvanceLands(cfg, w.core, applied, ev, s, bytes, r.parentStateRoot, r.patchHash, r.newStateRoot);
  }

  /** After every run from boot, any state-advance receipt ever signed that lands as the next event on its
      parent with the configured pins is accepted and takes the live root to its new root, whether its
      entry is pending, stale or long swept; an entry still pending for it is confirmed. */
  lemma SignedReceiptLands(
    cfg: Config, wiringOk: bool, head: nat, batch: seq<Event>, registry: (Hash, nat),
    clock: int, onChain: Miner -> Counters, steps: seq<Step>, i: nat, ev: Event)
    requires Binding(cfg) && Boot(cfg, wiringOk, head, batch, registry).Some?
    requires var w := Run(cfg, Booted(cfg, wiringOk, head, batch, registry, clock, onChain), steps);
             i < |w.signed| && !w.signed[i].screener && NextIs(cfg, w.core, ev.log, w.signed[i])
    ensures var w := Run(cfg, Booted(cfg, wiringOk, head, batch, registry, clock, onChain), steps);
            Lands(cfg, w.core, ev, w.signed[i])
  {
    var start, booted := Booted(cfg, wiringOk, head, batch, registry, clock, onChain), BootHistory(cfg, batch);
    BootRecords(cfg, wiringOk, head, batch, registry);
    RunLeads(cfg, start, booted, steps);
    RunRecords(cfg, start, booted, steps);
    LandsAfterRun(cfg, Run(cfg, start, steps), RunHistory(cfg, start, booted, steps), i, ev);
  }

  // ── runs on honest reads ─────────────────────────────────────────────────────

  /** Nodes return logs of the chain they serve. */
  ghost predicate HonestlyLogged(cfg: Config, steps: seq<Step>) {
    forall i :: 0 <= i < |steps| && steps[i].TickEnd? ==> HonestLogs(cfg, steps[i].r)
  }

  lemma {:induction false} RunGenuine(cfg: Config, w: World, applied: seq<Event>, steps: seq<Step>)
    requires Binding(cfg) && GenuineHistory(cfg, applied) && HonestlyLogged(cfg, steps)
    ensures GenuineHistory(cfg, RunHistory(cfg, w, applied, steps))
  {
    if steps != [] {
      var n := |steps| - 1;
      RunGenuine(cfg, w, applied, steps[..n]);
      if steps[n].TickEnd? {
        TickGenuine(cfg, Run(cfg, w, steps[..n]).core, RunHistory(cfg, w, applied, steps[..n]), steps[n].r);
      }
    }
  }

  lemma BootedGenuine(cfg: Config, w: World, batch: seq<Event>, bootChain: Blocks, steps: seq<Step>)
    requires Binding(cfg) && HonestlyLogged(cfg, steps)
    requires forall ev :: ev in batch ==> OnChain(cfg.blockHash, bootChain, ev)
    ensures GenuineHistory(cfg, RunHistory(cfg, w, BootHistory(cfg, batch), steps))
  {
    GenuineAppend(cfg, [], BootHistory(cfg, batch), bootChain);
    assert [] + BootHistory(cfg, batch) == BootHistory(cfg, batch);
    RunGenuine(cfg, w, BootHistory(cfg, batch), steps);
  }

  /** If the nodes return logs of the chain they serve, then after every run, faults in the middle of a
      batch and rebuilt chains included: on every chain whose advances are numbered and replay, and where
      the newest snapshot is canonical, the live state, root and index are the fold of its advances up to
      the live index. */
  lemma LiveStateFollowsTheChain(
    cfg: Config, wiringOk: bool, head: nat, batch: seq<Event>, registry: (Hash, nat), bootChain: Blocks,
    clock: int, onChain: Miner -> Counters, steps: seq<Step>, chain: Blocks)
    requires Binding(cfg) && Boot(cfg, wiringOk, head, batch, registry).Some?
    requires forall ev :: ev in batch ==> OnChain(cfg.blockHash, bootChain, ev)
    requires HonestlyLogged(cfg, steps)
    requires RegistryNumbered(cfg.blockHash, chain, cfg.epoch)
    requires LinkedHistory(cfg, EpochEvents(cfg.blockHash, chain, cfg.epoch))
    ensures var core := Run(cfg, Booted(cfg, wiringOk, head, batch, registry, clock, onChain), steps).core;
            |core.snapshots| > 0 && SnapshotCanonical(cfg, chain, core.snapshots[|core.snapshots| - 1]) ==>
              && -1 <= core.lastTransitionIndex < |EpochEvents(cfg.blockHash, chain, cfg.epoch)|
              && FoldOf(cfg, core.liveState, core.liveRoot, core.lastTransitionIndex,
                        EpochEvents(cfg.blockHash, chain, cfg.epoch)[..core.lastTransitionIndex + 1])
  {
    var w := Booted(cfg, wiringOk, head, batch, registry, clock, onChain);
    var core, history := Run(cfg, w, steps).core, RunHistory(cfg, w, BootHistory(cfg, batch), steps);
    EveryRunReplays(cfg, wiringOk, head, batch, registry, clock, onChain, steps);
    BootedGenuine(cfg, w, batch, bootChain, steps);
    if |core.snapshots| > 0 && SnapshotCanonical(cfg, chain, core.snapshots[|core.snapshots| - 1]) {
      LiveIsCanonicalFold(cfg, core, history, chain);
    }
  }

  /** The snapshots over the same runs, exactly: on every such chain where the newest snapshot is
      canonical, they are the tail of a prefix of its advances if and only if each of the at most 64
      blocks they name is canonical there. */
  lemma SnapshotsFollowTheChainIff(
    cfg: Config, wiringOk: bool, head: nat, batch: seq<Event>, registry: (Hash, nat), bootChain: Blocks,
    clock: int, onChain: Miner -> Counters, steps: seq<Step>, chain: Blocks)
    requires Binding(cfg) && Boot(cfg, wiringOk, head, batch, registry).Some?
    requires forall ev :: ev in batch ==> OnChain(cfg.blockHash, bootChain, ev)
    requires HonestlyLogged(cfg, steps)
    requires RegistryNumbered(cfg.blockHash, chain, cfg.epoch)
    requires LinkedHistory(cfg, EpochEvents(cfg.blockHash, chain, cfg.epoch))
    ensures var core := Run(cfg, Booted(cfg, wiringOk, head, batch, registry, clock, onChain), steps).core;
            |core.snapshots| > 0 && SnapshotCanonical(cfg, chain, core.snapshots[|core.snapshots| - 1]) ==>
              (TailCanonical(cfg, core, chain) <==>
                 forall j :: 0 <= j < |core.snapshots| ==> SnapshotCanonical(cfg, chain, core.snapshots[j]))
  {
    var w := Booted(cfg, wiringOk, head, batch, registry, clock, onChain);
    var core, history := Run(cfg, w, steps).core, RunHistory(cfg, w, BootHistory(cfg, batch), steps);
    EveryRunReplays(cfg, wiringOk, head, batch, registry, clock, onChain, steps);
    BootedGenuine(cfg, w, batch, bootChain, steps);
    if |core.snapshots| > 0 && SnapshotCanonical(cfg, chain, core.snapshots[|core.snapshots| - 1]) {
      TailCanonicalIffAllAre(cfg, core, history, chain);
    }
  }

  /** Honest reads of a numbered chain, and the newest block in sight or scanned, or nothing accepted. */
  ghost predicate HonestStep(cfg: Config, w: World, step: Step) {
    step.TickEnd? ==>
      HonestReads(cfg, w.core, step.r)
        && (NewestInSight(w.core, step.r.chain) || TickAccepted(cfg, w.core, step.r) == [])
  }

  ghost predicate HonestRun(cfg: Config, w: World, steps: seq<Step>) {
    steps != [] ==>
      var n := |steps| - 1;
      HonestRun(cfg, w, steps[..n]) && HonestStep(cfg, Run(cfg, w, steps[..n]), steps[n])
  }

  lemma StepFixed(cfg: Config, w: World, applied: seq<Event>, step: Step)
    requires Binding(cfg) && cfg.crypto.merkle(cfg.parentState) == cfg.parentRoot
    requires Watching(cfg, w.core, applied) && HonestStep(cfg, w, step)
    ensures FixedHistory(cfg, StepHistory(cfg, w, applied, step))
  {
    if step.TickEnd? {
      TickKeeps(cfg, w.core, applied, step.r);
    }
  }

  lemma {:induction false} RunFixed(cfg: Config, w: World, applied: seq<Event>, steps: seq<Step>)
    requires Binding(cfg) && cfg.crypto.merkle(cfg.parentState) == cfg.parentRoot
    requires Watching(cfg, w.core, applied) && LaneSound(cfg, w) && HonestRun(cfg, w, steps)
    ensures FixedHistory(cfg, RunHistory(cfg, w, applied, steps))
  {
    if steps != [] {
      var n := |steps| - 1;
      RunFixed(cfg, w, applied, steps[..n]);
      RunRecords(cfg, w, applied, steps[..n]);
      StepFixed(cfg, Run(cfg, w, steps[..n]), RunHistory(cfg, w, applied, steps[..n]), steps[n]);
    }
  }

  lemma CanonicalHistory(cfg: Config, w: World, applied: seq<Event>, steps: seq<Step>, chain: Blocks)
    requires Binding(cfg) && cfg.crypto.merkle(cfg.parentState) == cfg.parentRoot
    requires Watching(cfg, w.core, applied) && LaneSound(cfg, w) && HonestRun(cfg, w, steps)
    requires RegistryNumbered(cfg.blockHash, chain, cfg.epoch)
    ensures var core := Run(cfg, w, steps).core;
            |core.snapshots| > 0 && SnapshotCanonical(cfg, chain, core.snapshots[|core.snapshots| - 1]) ==>
              RunHistory(cfg, w, applied, steps) <= EpochEvents(cfg.blockHash, chain, cfg.epoch)
  {
    var core, history := Run(cfg, w, steps).core, RunHistory(cfg, w, applied, steps);
    RunFixed(cfg, w, applied, steps);
    RunRecords(cfg, w, applied, steps);
    if |core.snapshots| > 0 && SnapshotCanonical(cfg, chain, core.snapshots[|core.snapshots| - 1]) {
      NewestDecides(cfg, core, history, chain);
    }
  }

  /** With the block of the newest snapshot in sight at every tick that accepts something, the whole
      history, and so the snapshots, are canonical: a prefix of the advances of every chain where the
      newest snapshot is. */
  lemma HistoryFollowsTheChain(
    cfg: Config, wiringOk: bool, head: nat, batch: seq<Event>, registry: (Hash, nat), bootChain: Blocks,
    clock: int, onChain: Miner -> Counters, steps: seq<Step>, chain: Blocks)
    requires Binding(cfg) && Boot(cfg, wiringOk, head, batch, registry).Some?
    requires RegistryNumbered(cfg.blockHash, bootChain, cfg.epoch)
    requires forall ev :: ev in batch ==> OnChain(cfg.blockHash, bootChain, ev)
    requires HonestRun(cfg, Booted(cfg, wiringOk, head, batch, registry, clock, onChain), steps)
    requires RegistryNumbered(cfg.blockHash, chain, cfg.epoch)
    ensures var w := Booted(cfg, wiringOk, head, batch, registry, clock, onChain);
            var (core, history) := (Run(cfg, w, steps).core, RunHistory(cfg, w, BootHistory(cfg, batch), steps));
            |core.snapshots| > 0 && SnapshotCanonical(cfg, chain, core.snapshots[|core.snapshots| - 1]) ==>
              history <= EpochEvents(cfg.blockHash, chain, cfg.epoch)
  {
    BootKeeps(cfg, wiringOk, head, batch, registry, bootChain);
    CanonicalHistory(cfg, Booted(cfg, wiringOk, head, batch, registry, clock, onChain), BootHistory(cfg, batch),
                     steps, chain);
  }
}
