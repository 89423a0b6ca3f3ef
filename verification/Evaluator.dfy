/** The production evaluator's local path and its durable attempt store: draw a seed, pin it and
    charge the admission, score two packs, record the outcome; a crash may fall between any two
    store operations. */
module Evaluator {
  import opened Wrappers

  type Miner = int
  type Hash = int

  datatype Key = Key(epochId: nat, parentStateRoot: Hash, patchHash: Hash)
  datatype SeedContext = SeedContext(receivedAtBlock: nat, targetBlock: nat, blockhash: Hash)
  datatype Outcome = Reject | ScreenerPass | StateAdvance
  datatype AttemptState = Drawn | Rejected | Accepted

  datatype Attempt = Attempt(state: AttemptState, seedContext: SeedContext, miner: Miner,
                             admissionCharged: bool, outcome: Option<Outcome>)

  datatype Store = Store(records: map<Key, Outcome>, attempts: map<Key, Attempt>)

  // ── store operations ─────────────────────────────────────────────────────────

  predicate ChargedTo(attempts: map<Key, Attempt>, k: Key, epochId: nat, miner: Miner) {
    k in attempts && k.epochId == epochId && attempts[k].admissionCharged && attempts[k].miner == miner
  }

  function ChargedKeys(attempts: map<Key, Attempt>, epochId: nat, miner: Miner): set<Key> {
    set k | k in attempts && ChargedTo(attempts, k, epochId, miner)
  }

  function MinerAdmissions(attempts: map<Key, Attempt>, epochId: nat, miner: Miner): nat {
    |ChargedKeys(attempts, epochId, miner)|
  }

  /** Pins the seed and charges the admission in one write; an existing attempt is left untouched. */
  function DrawAndCharge(s: Store, k: Key, ctx: SeedContext, miner: Miner): Store {
    if k in s.attempts then s
    else s.(attempts := s.attempts[k := Attempt(Drawn, ctx, miner, true, None)])
  }

  /** None: no pinned seed, the store throws. */
  function RecordOutcome(s: Store, k: Key, outcome: Outcome): Option<Store> {
    if k !in s.attempts then None
    else
      var state := if outcome == Reject then Rejected else Accepted;
      Some(s.(attempts := s.attempts[k := s.attempts[k].(state := state, outcome := Some(outcome))]))
  }

  class DedupStore {
    var records: map<Key, Outcome>
    var attempts: map<Key, Attempt>

    ghost function View(): Store
      reads this
    {
      Store(records, attempts)
    }

    constructor ()
      ensures View() == Store(map[], map[])
    {
      records, attempts := map[], map[];
    }

    method Get(k: Key) returns (r: Option<Outcome>)
      ensures r == if k in records then Some(records[k]) else None
    {
      r := if k in records then Some(records[k]) else None;
    }

    method GetAttempt(k: Key) returns (r: Option<Attempt>)
      ensures r == if k in attempts then Some(attempts[k]) else None
    {
      r := if k in attempts then Some(attempts[k]) else None;
    }

    method Put(k: Key, outcome: Outcome)
      modifies this`records
      ensures records == old(records)[k := outcome]
    {
      records := records[k := outcome];
    }

    /** The count is derived from the attempt rows. */
    method CountAdmissions(epochId: nat, miner: Miner) returns (count: nat)
      ensures count == MinerAdmissions(attempts, epochId, miner)
    {
      count := 0;
      ghost var counted: set<Key> := {};
      var todo: set<Key> := attempts.Keys;
      while exists k :: k in todo
        invariant todo <= attempts.Keys
        invariant counted == set k | k in attempts && k !in todo && ChargedTo(attempts, k, epochId, miner)
        invariant count == |counted|
        decreases todo
      {
        var k :| k in todo;
        todo := todo - {k};
        if k.epochId == epochId && attempts[k].admissionCharged && attempts[k].miner == miner {
          assert k !in counted;
          counted := counted + {k};
          count := count + 1;
        }
      }
      assert counted == ChargedKeys(attempts, epochId, miner);
    }

    method RecordSeedDrawnAndAdmission(k: Key, ctx: SeedContext, miner: Miner)
      modifies this`attempts
      ensures View() == DrawAndCharge(old(View()), k, ctx, miner)
    {
      if k !in attempts {
        attempts := attempts[k := Attempt(Drawn, ctx, miner, true, None)];
      }
    }

    method RecordAttemptOutcome(k: Key, outcome: Outcome) returns (ok: bool)
      modifies this`attempts
      ensures ok == RecordOutcome(old(View()), k, outcome).Some?
      ensures View() == if ok then RecordOutcome(old(View()), k, outcome).value else old(View())
    {
      if k !in attempts {
        return false;
      }
      var state := if outcome == Reject then Rejected else Accepted;
      attempts := attempts[k := attempts[k].(state := state, outcome := Some(outcome))];
      return true;
    }
  }

  // ── one scorePatch call, store operation by store operation ──────────────────

  datatype Pack = Gate | Confirm

  /** A scorer call that was made: for which key and miner, under which seed, what it answered, and the
      threshold in force. */
  datatype Call = Call(key: Key, miner: Miner, ctx: SeedContext, pack: Pack,
                       scorePpm: int, accepted: bool, thresholdPpm: int)

  /** Where the one running call is. */
  datatype Pc =
    | Idle
    | CheckRecord(key: Key, miner: Miner)
    | CheckAttempt(key: Key, miner: Miner)
    | CheckCap(key: Key, miner: Miner)
    | Draw(key: Key, miner: Miner)
    | Pin(key: Key, miner: Miner, ctx: SeedContext)
    | ScoreGate(key: Key, miner: Miner, ctx: SeedContext)
    | ScoreConfirm(key: Key, miner: Miner, ctx: SeedContext, gatePpm: int)
    | Record(key: Key, miner: Miner, ctx: SeedContext, outcome: Outcome)
    | PutRecord(key: Key, outcome: Outcome)

  datatype World = World(store: Store, pc: Pc, calls: seq<Call>, draws: seq<(Key, Miner)>)

  datatype Config = Config(perMinerCap: nat, stateThresholdPpm: int)

  datatype Step =
    | Submit(key: Key, miner: Miner)
    | Advance                                        // the next store operation
    | SeedArrives(ctx: SeedContext)                  // the future blockhash landed
    | Scored(scorePpm: int, accepted: bool, thresholdPpm: int)
    | Crash                                          // or any throw: the call ends, the store stays

  function Next(cfg: Config, w: World, step: Step): World {
    match step
    case Submit(key, miner) => if w.pc.Idle? then w.(pc := CheckRecord(key, miner)) else w
    case Crash => w.(pc := Idle)
    case Advance => StoreStep(cfg, w)
    case SeedArrives(ctx) => if w.pc.Draw? then w.(pc := Pin(w.pc.key, w.pc.miner, ctx)) else w
    case Scored(score, accepted, threshold) => PackScored(cfg, w, score, accepted, threshold)
  }

  function StoreStep(cfg: Config, w: World): World {
    match w.pc
    case CheckRecord(key, miner) =>
      // a completed evaluation is a duplicate submission
      w.(pc := if key in w.store.records then Idle else CheckAttempt(key, miner))
    case CheckAttempt(key, miner) =>
      if key !in w.store.attempts then w.(pc := CheckCap(key, miner))
      else
        var prior := w.store.attempts[key];
        // another miner's attempt is in flight; one's own is retried under its pinned seed
        w.(pc := if prior.miner != miner then Idle else ScoreGate(key, miner, prior.seedContext))
    case CheckCap(key, miner) =>
      w.(pc := if MinerAdmissions(w.store.attempts, key.epochId, miner) >= cfg.perMinerCap then Idle
         else Draw(key, miner))
    case Pin(key, miner, ctx) =>
      w.(store := DrawAndCharge(w.store, key, ctx, miner), pc := ScoreGate(key, miner, ctx),
         draws := if key in w.store.attempts then w.draws else w.draws + [(key, miner)])
    case Record(key, miner, ctx, outcome) =>
      var s := RecordOutcome(w.store, key, outcome);
      if s.None? then w.(pc := Idle) else w.(store := s.value, pc := PutRecord(key, outcome))
    case PutRecord(key, outcome) => w.(store := w.store.(records := w.store.records[key := outcome]), pc := Idle)
    case _ => w
  }

  function Min(a: int, b: int): int { if a <= b then a else b }

  /** A rejection is recorded only if a block number says that packs were drawn. */
  function AfterReject(key: Key, miner: Miner, ctx: SeedContext): Pc {
    if ctx.receivedAtBlock > 0 then Record(key, miner, ctx, Reject) else Idle
  }

  function PackScored(cfg: Config, w: World, score: int, accepted: bool, threshold: int): World {
    match w.pc
    case ScoreGate(key, miner, ctx) =>
      w.(calls := w.calls + [Call(key, miner, ctx, Gate, score, accepted, threshold)],
         pc := if score >= threshold && accepted then ScoreConfirm(key, miner, ctx, score)
               else AfterReject(key, miner, ctx))
    case ScoreConfirm(key, miner, ctx, gatePpm) =>
      w.(calls := w.calls + [Call(key, miner, ctx, Confirm, score, accepted, threshold)],
         pc := if !(score >= threshold && accepted) then AfterReject(key, miner, ctx)
               else Record(key, miner, ctx,
                           if Min(gatePpm, score) >= cfg.stateThresholdPpm then StateAdvance else ScreenerPass))
    case _ => w
  }

  function Run(cfg: Config, w: World, steps: seq<Step>): World {
    if steps == [] then w else Next(cfg, Run(cfg, w, steps[..|steps| - 1]), steps[|steps| - 1])
  }

  const FRESH := World(Store(map[], map[]), Idle, [], [])

  // ── invariants ───────────────────────────────────────────────────────────────

  /** The key's pinned attempt has this seed and this miner. */
  predicate PinnedAs(attempts: map<Key, Attempt>, key: Key, miner: Miner, ctx: SeedContext) {
    key in attempts && attempts[key].seedContext == ctx && attempts[key].miner == miner
  }

  ghost predicate CallsPinned(attempts: map<Key, Attempt>, calls: seq<Call>) {
    forall i :: 0 <= i < |calls| ==> PinnedAs(attempts, calls[i].key, calls[i].miner, calls[i].ctx)
  }

  /** The running call holds its pin, or nothing is pinned yet and its cap check still stands. */
  ghost predicate PcSound(cfg: Config, attempts: map<Key, Attempt>, pc: Pc) {
    match pc
    case CheckCap(key, miner) => key !in attempts
    case Draw(key, miner) => key !in attempts && MinerAdmissions(attempts, key.epochId, miner) < cfg.perMinerCap
    case Pin(key, miner, ctx) => key !in attempts && MinerAdmissions(attempts, key.epochId, miner) < cfg.perMinerCap
    case ScoreGate(key, miner, ctx) => PinnedAs(attempts, key, miner, ctx)
    case ScoreConfirm(key, miner, ctx, _) => PinnedAs(attempts, key, miner, ctx)
    case Record(key, miner, ctx, _) => PinnedAs(attempts, key, miner, ctx)
    case _ => true
  }

  ghost predicate UnderCap(cfg: Config, attempts: map<Key, Attempt>) {
    forall epochId, miner :: MinerAdmissions(attempts, epochId, miner) <= cfg.perMinerCap
  }

  function FirstDraws(draws: seq<(Key, Miner)>, epochId: nat, miner: Miner): nat {
    if draws == [] then 0
    else
      var (k, m) := draws[|draws| - 1];
      FirstDraws(draws[..|draws| - 1], epochId, miner) + if k.epochId == epochId && m == miner then 1 else 0
  }

  /** Every key was drawn at most once, and a miner's admissions are its first draws. */
  ghost predicate Accounted(attempts: map<Key, Attempt>, draws: seq<(Key, Miner)>) {
    && (forall k :: k in attempts <==> exists i :: 0 <= i < |draws| && draws[i].0 == k)
    && (forall i, j :: 0 <= i < j < |draws| ==> draws[i].0 != draws[j].0)
    && (forall epochId, miner :: MinerAdmissions(attempts, epochId, miner) == FirstDraws(draws, epochId, miner))
  }

  ghost predicate Sound(cfg: Config, w: World) {
    && CallsPinned(w.store.attempts, w.calls) && PcSound(cfg, w.store.attempts, w.pc)
    && UnderCap(cfg, w.store.attempts) && Accounted(w.store.attempts, w.draws)
  }

  // ── preservation ─────────────────────────────────────────────────────────────

  lemma ChargeCounts(attempts: map<Key, Attempt>, k: Key, ctx: SeedContext, m: Miner, epochId: nat, miner: Miner)
    requires k !in attempts
    ensures MinerAdmissions(attempts[k := Attempt(Drawn, ctx, m, true, None)], epochId, miner)
            == MinerAdmissions(attempts, epochId, miner) + if k.epochId == epochId && m == miner then 1 else 0
  {
    var after := attempts[k := Attempt(Drawn, ctx, m, true, None)];
    var was, now := ChargedKeys(attempts, epochId, miner), ChargedKeys(after, epochId, miner);
    if k.epochId == epochId && m == miner {
      assert now == was + {k};
    } else {
      assert now == was;
    }
  }

  lemma PinAccounts(attempts: map<Key, Attempt>, draws: seq<(Key, Miner)>, k: Key, ctx: SeedContext, m: Miner)
    requires Accounted(attempts, draws) && k !in attempts
    ensures Accounted(attempts[k := Attempt(Drawn, ctx, m, true, None)], draws + [(k, m)])
  {
    var after, grown := attempts[k := Attempt(Drawn, ctx, m, true, None)], draws + [(k, m)];
    assert grown[..|draws|] == draws;
    forall x
      ensures x in after <==> exists i :: 0 <= i < |grown| && grown[i].0 == x
    {
      assert grown[|draws|].0 == k;
      if x in attempts {
        var i :| 0 <= i < |draws| && draws[i].0 == x;
        assert grown[i].0 == x;
      }
    }
    forall epochId, miner
      ensures MinerAdmissions(after, epochId, miner) == FirstDraws(grown, epochId, miner)
    {
      ChargeCounts(attempts, k, ctx, m, epochId, miner);
    }
  }

  lemma PinKeeps(cfg: Config, w: World)
    requires Sound(cfg, w) && w.pc.Pin?
    ensures Sound(cfg, StoreStep(cfg, w))
  {
    var (k, m, ctx) := (w.pc.key, w.pc.miner, w.pc.ctx);
    PinAccounts(w.store.attempts, w.draws, k, ctx, m);
    var after := StoreStep(cfg, w).store.attempts;
    forall epochId, miner
      ensures MinerAdmissions(after, epochId, miner) <= cfg.perMinerCap
    {
      ChargeCounts(w.store.attempts, k, ctx, m, epochId, miner);
    }
  }

  /** Recording an outcome changes neither pins nor charges. */
  lemma RecordKeeps(cfg: Config, w: World)
    requires Sound(cfg, w) && w.pc.Record?
    ensures Sound(cfg, StoreStep(cfg, w))
  {
    var was, now := w.store.attempts, StoreStep(cfg, w).store.attempts;
    forall epochId, miner
      ensures MinerAdmissions(now, epochId, miner) == MinerAdmissions(was, epochId, miner)
    {
      assert ChargedKeys(now, epochId, miner) == ChargedKeys(was, epochId, miner);
    }
  }

  lemma StepKeeps(cfg: Config, w: World, step: Step)
    requires Sound(cfg, w)
    ensures Sound(cfg, Next(cfg, w, step))
  {
    if step.Advance? && w.pc.Pin? {
      PinKeeps(cfg, w);
    } else if step.Advance? && w.pc.Record? {
      RecordKeeps(cfg, w);
    }
  }

  lemma {:induction false} RunKeeps(cfg: Config, w: World, steps: seq<Step>)
    requires Sound(cfg, w)
    ensures Sound(cfg, Run(cfg, w, steps))
  {
    if steps != [] {
      RunKeeps(cfg, w, steps[..|steps| - 1]);
      StepKeeps(cfg, Run(cfg, w, steps[..|steps| - 1]), steps[|steps| - 1]);
    }
  }

  lemma FreshIsSound(cfg: Config)
    ensures Sound(cfg, FRESH)
  {
    forall epochId, miner
      ensures MinerAdmissions(FRESH.store.attempts, epochId, miner) == 0
    {
      assert ChargedKeys(FRESH.store.attempts, epochId, miner) == {};
    }
  }

  /** In every run with crashes anywhere: all scorer calls for one key used one seed context and were
      made for one miner, and a miner's admissions are the distinct keys it drew first, at most the cap. */
  lemma OneSeedOneMinerPerKey(cfg: Config, steps: seq<Step>, i: nat, j: nat, epochId: nat, miner: Miner)
    ensures var w := Run(cfg, FRESH, steps);
            && (i < |w.calls| && j < |w.calls| && w.calls[i].key == w.calls[j].key ==>
                  w.calls[i].ctx == w.calls[j].ctx && w.calls[i].miner == w.calls[j].miner)
            && MinerAdmissions(w.store.attempts, epochId, miner) == FirstDraws(w.draws, epochId, miner)
            && FirstDraws(w.draws, epochId, miner) <= cfg.perMinerCap
            && (forall a, b :: 0 <= a < b < |w.draws| ==> w.draws[a].0 != w.draws[b].0)
  {
    FreshIsSound(cfg);
    RunKeeps(cfg, FRESH, steps);
  }

  /** A drawn attempt is never unpinned: later steps keep its seed, its miner and its charge. */
  lemma {:induction false} PinsAreForever(cfg: Config, w: World, steps: seq<Step>, key: Key)
    requires key in w.store.attempts
    ensures var later := Run(cfg, w, steps).store.attempts;
            key in later && later[key].seedContext == w.store.attempts[key].seedContext
            && later[key].miner == w.store.attempts[key].miner
            && later[key].admissionCharged == w.store.attempts[key].admissionCharged
  {
    if steps != [] {
      PinsAreForever(cfg, w, steps[..|steps| - 1], key);
    }
  }

  // ── what a recorded outcome stands for ───────────────────────────────────────

  /** A pack passes only above the threshold and with the scorer's own acceptance. */
  predicate Passes(c: Call) {
    c.accepted && c.thresholdPpm <= c.scorePpm
  }

  predicate IsCall(calls: seq<Call>, i: int, key: Key, pack: Pack) {
    0 <= i < |calls| && calls[i].key == key && calls[i].pack == pack
  }

  /** The key's last evaluation: its gate call, and right after it its confirm call if the gate passed;
      no call for the key after that. */
  ghost predicate EvaluationAt(calls: seq<Call>, key: Key, g: int) {
    && IsCall(calls, g, key, Gate)
    && (Passes(calls[g]) <==> IsCall(calls, g + 1, key, Confirm))
    && (forall i :: g + 1 < i < |calls| ==> calls[i].key != key)
    && (g + 1 < |calls| && calls[g + 1].key == key ==> calls[g + 1].pack == Confirm)
  }

  ghost predicate BothPass(calls: seq<Call>, g: int)
    requires 0 <= g < |calls|
  {
    Passes(calls[g]) && g + 1 < |calls| && Passes(calls[g + 1])
  }

  /** The outcome those calls deserve. */
  ghost predicate Deserved(cfg: Config, calls: seq<Call>, key: Key, outcome: Outcome, g: int) {
    && EvaluationAt(calls, key, g)
    && (outcome == Reject <==> !BothPass(calls, g))
    && (outcome == StateAdvance <==>
          BothPass(calls, g) && calls[g].scorePpm >= cfg.stateThresholdPpm
          && calls[g + 1].scorePpm >= cfg.stateThresholdPpm)
    && (outcome == ScreenerPass <==>
          BothPass(calls, g)
          && (calls[g].scorePpm < cfg.stateThresholdPpm || calls[g + 1].scorePpm < cfg.stateThresholdPpm))
  }

  ghost predicate Judged(cfg: Config, calls: seq<Call>, key: Key, outcome: Outcome) {
    exists g :: Deserved(cfg, calls, key, outcome, g)
  }

  /** The attempt carries the outcome; a rejection is recorded only of drawn packs. */
  predicate Upgraded(attempts: map<Key, Attempt>, key: Key, outcome: Outcome) {
    && key in attempts && attempts[key].outcome == Some(outcome)
    && attempts[key].state == (if outcome == Reject then Rejected else Accepted)
    && (outcome == Reject ==> attempts[key].seedContext.receivedAtBlock > 0)
  }

  ghost predicate RecordsJudged(cfg: Config, store: Store, calls: seq<Call>) {
    forall k :: k in store.records ==>
      Judged(cfg, calls, k, store.records[k]) && Upgraded(store.attempts, k, store.records[k])
  }

  /** The running call's key has no record yet, and its verdict so far is that of the last calls. */
  ghost predicate PcJudged(cfg: Config, store: Store, calls: seq<Call>, pc: Pc) {
    match pc
    case Idle => true
    case CheckRecord(_, _) => true
    case CheckAttempt(key, _) => key !in store.records
    case CheckCap(key, _) => key !in store.records && key !in store.attempts
    case Draw(key, _) => key !in store.records && key !in store.attempts
    case Pin(key, _, _) => key !in store.records && key !in store.attempts
    case ScoreGate(key, _, _) => key !in store.records
    case ScoreConfirm(key, _, _, gatePpm) =>
      && key !in store.records && IsCall(calls, |calls| - 1, key, Gate) && Passes(calls[|calls| - 1])
      && calls[|calls| - 1].scorePpm == gatePpm
    case Record(key, _, ctx, outcome) =>
      && key !in store.records && Judged(cfg, calls, key, outcome)
      && (outcome == Reject ==> ctx.receivedAtBlock > 0)
    case PutRecord(key, outcome) =>
      key !in store.records && Judged(cfg, calls, key, outcome) && Upgraded(store.attempts, key, outcome)
  }

  ghost predicate Judging(cfg: Config, w: World) {
    RecordsJudged(cfg, w.store, w.calls) && PcJudged(cfg, w.store, w.calls, w.pc)
  }

  /** A call for another key changes no verdict. */
  lemma OthersStay(cfg: Config, calls: seq<Call>, c: Call, key: Key, outcome: Outcome)
    requires Judged(cfg, calls, key, outcome) && c.key != key
    ensures Judged(cfg, calls + [c], key, outcome)
  {
    var g :| Deserved(cfg, calls, key, outcome, g);
    assert Deserved(cfg, calls + [c], key, outcome, g);
  }

  lemma GateRejects(cfg: Config, calls: seq<Call>, c: Call)
    requires c.pack == Gate && !Passes(c)
    ensures Judged(cfg, calls + [c], c.key, Reject)
  {
    assert Deserved(cfg, calls + [c], c.key, Reject, |calls|);
  }

  lemma ConfirmDecides(cfg: Config, calls: seq<Call>, c: Call, outcome: Outcome)
    requires c.pack == Confirm && IsCall(calls, |calls| - 1, c.key, Gate) && Passes(calls[|calls| - 1])
    requires outcome == if !Passes(c) then Reject
                        else if calls[|calls| - 1].scorePpm >= cfg.stateThresholdPpm
                          && c.scorePpm >= cfg.stateThresholdPpm
                        then StateAdvance else ScreenerPass
    ensures Judged(cfg, calls + [c], c.key, outcome)
  {
    assert Deserved(cfg, calls + [c], c.key, outcome, |calls| - 1);
  }

  lemma ScoringJudges(cfg: Config, w: World, score: int, accepted: bool, threshold: int)
    requires Judging(cfg, w)
    ensures Judging(cfg, PackScored(cfg, w, score, accepted, threshold))
  {
    var v := PackScored(cfg, w, score, accepted, threshold);
    if w.pc.ScoreGate? || w.pc.ScoreConfirm? {
      var c := v.calls[|w.calls|];
      forall k | k in v.store.records
        ensures Judged(cfg, v.calls, k, v.store.records[k])
      {
        OthersStay(cfg, w.calls, c, k, v.store.records[k]);
      }
      if v.pc.Record? {
        if w.pc.ScoreGate? {
          GateRejects(cfg, w.calls, c);
        } else {
          ConfirmDecides(cfg, w.calls, c, v.pc.outcome);
        }
      }
    }
  }

  lemma StepJudges(cfg: Config, w: World, step: Step)
    requires Judging(cfg, w) && Sound(cfg, w)
    ensures Judging(cfg, Next(cfg, w, step))
  {
    if step.Scored? {
      ScoringJudges(cfg, w, step.scorePpm, step.accepted, step.thresholdPpm);
    }
  }

  lemma {:induction false} RunJudges(cfg: Config, steps: seq<Step>)
    ensures Judging(cfg, Run(cfg, FRESH, steps))
  {
    if steps != [] {
      RunJudges(cfg, steps[..|steps| - 1]);
      FreshIsSound(cfg);
      RunKeeps(cfg, FRESH, steps[..|steps| - 1]);
      StepJudges(cfg, Run(cfg, FRESH, steps[..|steps| - 1]), steps[|steps| - 1]);
    }
  }

  /** In every run with crashes anywhere, a record is what the calls of its evaluation deserve: a state
      advance exactly when both packs passed and scored at least the state threshold, a screener pass
      exactly when both passed and one scored below it, a rejection exactly when one failed; no call for
      the key was made afterwards, and its attempt carries the same outcome. */
  lemma RecordedOutcome(cfg: Config, steps: seq<Step>, key: Key) returns (g: int)
    requires key in Run(cfg, FRESH, steps).store.records
    ensures var w := Run(cfg, FRESH, steps);
            && Deserved(cfg, w.calls, key, w.store.records[key], g)
            && Upgraded(w.store.attempts, key, w.store.records[key])
  {
    RunJudges(cfg, steps);
    var w := Run(cfg, FRESH, steps);
    g :| Deserved(cfg, w.calls, key, w.store.records[key], g);
  }

  // ── what an undisturbed call does ────────────────────────────────────────────

  lemma RunMore(cfg: Config, w: World, steps: seq<Step>, step: Step)
    ensures Run(cfg, w, steps + [step]) == Next(cfg, Run(cfg, w, steps), step)
  {
    assert (steps + [step])[..|steps|] == steps;
  }

  /** The two scorer answers and the two writes that end an evaluation. */
  function Ending(gate: Step, confirm: Step): seq<Step> {
    [gate, confirm, Advance, Advance]
  }

  predicate AnswerPasses(answer: Step)
    requires answer.Scored?
  {
    answer.accepted && answer.thresholdPpm <= answer.scorePpm
  }

  /** The store of an evaluation that ran to its end: a record, an upgraded attempt under the pinned seed
      and miner, and nothing else touched. */
  ghost predicate Completed(was: Store, now: Store, key: Key, miner: Miner, ctx: SeedContext) {
    && key in now.records && now.records == was.records[key := now.records[key]]
    && Upgraded(now.attempts, key, now.records[key]) && PinnedAs(now.attempts, key, miner, ctx)
    && now.attempts[key].admissionCharged && now.attempts == was.attempts[key := now.attempts[key]]
  }

  lemma AnsweredToTheEnd(cfg: Config, v: World, gate: Step, confirm: Step)
    requires v.pc.ScoreGate? && gate.Scored? && confirm.Scored? && v.pc.ctx.receivedAtBlock > 0
    ensures var judged := Next(cfg, Next(cfg, v, gate), confirm);
            && judged.store == v.store && judged.pc.Record? && judged.pc.key == v.pc.key
            && |judged.calls| == |v.calls| + (if AnswerPasses(gate) then 2 else 1)
  {
  }

  lemma WrittenToTheEnd(cfg: Config, v: World, miner: Miner, ctx: SeedContext)
    requires v.pc.Record? && PinnedAs(v.store.attempts, v.pc.key, miner, ctx) && ctx.receivedAtBlock > 0
    requires v.store.attempts[v.pc.key].admissionCharged
    ensures var done := Next(cfg, Next(cfg, v, Advance), Advance);
            && done.pc.Idle? && Completed(v.store, done.store, v.pc.key, miner, ctx) && done.calls == v.calls
  {
  }

  lemma RunTwo(cfg: Config, w: World, steps: seq<Step>, a: Step, b: Step) returns (v: World)
    ensures v == Next(cfg, Next(cfg, Run(cfg, w, steps), a), b) && Run(cfg, w, steps + [a, b]) == v
  {
    v := Next(cfg, Next(cfg, Run(cfg, w, steps), a), b);
    RunMore(cfg, w, steps, a);
    RunMore(cfg, w, steps + [a], b);
    assert steps + [a, b] == steps + [a] + [b];
  }

  lemma ScoredToTheEnd(cfg: Config, w: World, steps: seq<Step>, gate: Step, confirm: Step)
    requires var v := Run(cfg, w, steps);
             && v.pc.ScoreGate? && PinnedAs(v.store.attempts, v.pc.key, v.pc.miner, v.pc.ctx)
             && v.store.attempts[v.pc.key].admissionCharged && v.pc.ctx.receivedAtBlock > 0
    requires gate.Scored? && confirm.Scored?
    ensures var v, done := Run(cfg, w, steps), Run(cfg, w, steps + Ending(gate, confirm));
            && done.pc.Idle? && Completed(v.store, done.store, v.pc.key, v.pc.miner, v.pc.ctx)
            && |done.calls| == |v.calls| + (if AnswerPasses(gate) then 2 else 1)
  {
    var v := Run(cfg, w, steps);
    AnsweredToTheEnd(cfg, v, gate, confirm);
    var judged := RunTwo(cfg, w, steps, gate, confirm);
    WrittenToTheEnd(cfg, judged, v.pc.miner, v.pc.ctx);
    var done := RunTwo(cfg, w, steps + [gate, confirm], Advance, Advance);
    assert steps + Ending(gate, confirm) == steps + [gate, confirm] + [Advance, Advance];
  }

  /** The first submission of a key by a miner below its cap, undisturbed: the drawn seed is pinned, the
      admission charged, and the outcome recorded. */
  lemma FirstEvaluationCompletes(cfg: Config, w: World, key: Key, miner: Miner, ctx: SeedContext, gate: Step,
                                 confirm: Step)
    requires w.pc.Idle? && key !in w.store.records && key !in w.store.attempts
    requires MinerAdmissions(w.store.attempts, key.epochId, miner) < cfg.perMinerCap
    requires gate.Scored? && confirm.Scored? && ctx.receivedAtBlock > 0
    ensures var opening := [Submit(key, miner), Advance, Advance, Advance, SeedArrives(ctx), Advance];
            var done := Run(cfg, w, opening + Ending(gate, confirm));
            done.pc.Idle? && Completed(w.store, done.store, key, miner, ctx)
  {
    var s1: seq<Step> := [] + [Submit(key, miner)];
    var s2 := s1 + [Advance];
    var s3 := s2 + [Advance];
    var s4 := s3 + [Advance];
    var s5 := s4 + [SeedArrives(ctx)];
    RunMore(cfg, w, [], Submit(key, miner));
    RunMore(cfg, w, s1, Advance);
    RunMore(cfg, w, s2, Advance);
    RunMore(cfg, w, s3, Advance);
    RunMore(cfg, w, s4, SeedArrives(ctx));
    RunMore(cfg, w, s5, Advance);
    ScoredToTheEnd(cfg, w, s5 + [Advance], gate, confirm);
    assert s5 + [Advance] == [Submit(key, miner), Advance, Advance, Advance, SeedArrives(ctx), Advance];
  }

  /** A miner's own unfinished attempt, submitted again: scored under the seed pinned before, at no new
      charge, whatever its cap. */
  lemma RetryCompletes(cfg: Config, w: World, key: Key, miner: Miner, gate: Step, confirm: Step)
    requires w.pc.Idle? && key !in w.store.records && key in w.store.attempts
    requires w.store.attempts[key].miner == miner && w.store.attempts[key].admissionCharged
    requires gate.Scored? && confirm.Scored? && w.store.attempts[key].seedContext.receivedAtBlock > 0
    ensures var done := Run(cfg, w, [Submit(key, miner), Advance, Advance] + Ending(gate, confirm));
            done.pc.Idle? && Completed(w.store, done.store, key, miner, w.store.attempts[key].seedContext)
  {
    var s1: seq<Step> := [] + [Submit(key, miner)];
    var s2 := s1 + [Advance];
    RunMore(cfg, w, [], Submit(key, miner));
    RunMore(cfg, w, s1, Advance);
    RunMore(cfg, w, s2, Advance);
    ScoredToTheEnd(cfg, w, s2 + [Advance], gate, confirm);
    assert s2 + [Advance] == [Submit(key, miner), Advance, Advance];
  }
}
