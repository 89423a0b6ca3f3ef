/** The scorer's bounded job queue, and the trace its jobs share. */
module ScorerQueue {
  import PairTrace

  type Job = int

  function Least(a: int, b: int): int { if a <= b then a else b }

  // ── jobs over one traced reranker ────────────────────────────────────────────

  /** The queue's own state; jobs are named by the order they were accepted in. */
  datatype Line = Line(accepted: nat, queue: seq<nat>, running: set<nat>, finished: set<nat>)
  datatype Limits = Limits(depth: nat, concurrency: nat)

  function Drained(limits: Limits, line: Line): (r: Line)
    ensures line.running <= r.running
    decreases |line.queue|
  {
    if |line.running| < limits.concurrency && line.queue != [] then Drained(limits, Seated(line)) else line
  }

  /** The head of the queue starts. */
  function Seated(line: Line): Line
    requires line.queue != []
  {
    Line(line.accepted, line.queue[1..], line.running + {line.queue[0]}, line.finished)
  }

  function Joined(line: Line): Line {
    Line(line.accepted + 1, line.queue + [line.accepted], line.running, line.finished)
  }

  function Left(line: Line, job: nat): Line {
    Line(line.accepted, line.queue, line.running - {job}, line.finished + {job})
  }

  /** `calls` holds, for each running job that has reset the trace, the score() calls it made since. */
  datatype Scorer = Scorer(line: Line, trace: PairTrace.Trace, calls: map<nat, seq<PairTrace.Call>>)

  datatype Step =
    | Enqueue
    | Reset(job: nat)
    | ScoreCall(job: nat, call: PairTrace.Call)
    | Settle(job: nat)

  function NextLine(limits: Limits, line: Line, step: Step): Line {
    match step
    case Enqueue => if |line.queue| >= limits.depth then line else Drained(limits, Joined(line))
    case Settle(j) => if j !in line.running then line else Drained(limits, Left(line, j))
    case _ => line
  }

  function Next(limits: Limits, env: PairTrace.Env, s: Scorer, step: Step): Scorer {
    var line := NextLine(limits, s.line, step);
    match step
    case Enqueue => Scorer(line, s.trace, s.calls)
    case Reset(j) =>
      if j !in s.line.running then s else Scorer(line, PairTrace.FRESH, s.calls[j := []])
    case ScoreCall(j, call) =>
      if j !in s.line.running || j !in s.calls then s
      else Scorer(line, PairTrace.AfterCall(env, s.trace, call), s.calls[j := s.calls[j] + [call]])
    case Settle(j) =>
      if j !in s.line.running then s else Scorer(line, s.trace, s.calls - {j})
  }

  const IDLE := Scorer(Line(0, [], {}, {}), PairTrace.FRESH, map[])

  function Run(limits: Limits, env: PairTrace.Env, steps: seq<Step>): Scorer {
    if steps == [] then IDLE else Next(limits, env, Run(limits, env, steps[..|steps| - 1]), steps[|steps| - 1])
  }

  // ── the queue over every run ─────────────────────────────────────────────────

  function FirstJobs(n: nat): (r: set<nat>)
    ensures |r| == n && forall j :: j in r <==> 0 <= j < n
  {
    if n == 0 then {} else FirstJobs(n - 1) + {n - 1}
  }

  /** `n` of the first `n` jobs have started; each runs or has finished. */
  ghost predicate Started(n: int, running: set<nat>, finished: set<nat>) {
    && n == |running| + |finished|
    && (forall j :: j in running ==> j < n && j !in finished)
    && (forall j :: j in finished ==> j < n)
  }

  /** So exactly the first `n` have. */
  lemma StartedAreFirst(n: int, running: set<nat>, finished: set<nat>)
    requires Started(n, running, finished)
    ensures running !! finished && running + finished == FirstJobs(n)
  {
    assert |running + finished| == |running| + |finished|;
    SameSize(running + finished, FirstJobs(n));
  }

  lemma SameSize(a: set<nat>, b: set<nat>)
    requires a <= b && |a| == |b|
    ensures a == b
  {
    assert b == a + (b - a) && |b - a| == 0;
  }

  /** The waiting jobs are the ones accepted after the first `n`, in order. */
  ghost predicate Waiting(n: int, queue: seq<nat>) {
    forall i :: 0 <= i < |queue| ==> queue[i] == n + i
  }

  ghost predicate InOrder(limits: Limits, line: Line) {
    && |line.queue| <= limits.depth
    && |line.running| <= limits.concurrency
    && Waiting(line.accepted - |line.queue|, line.queue)
    && Started(line.accepted - |line.queue|, line.running, line.finished)
  }

  ghost predicate Busy(limits: Limits, line: Line) {
    line.queue != [] ==> |line.running| == limits.concurrency
  }

  lemma StartNext(n: nat, running: set<nat>, finished: set<nat>)
    requires Started(n, running, finished)
    ensures Started(n + 1, running + {n}, finished) && |running + {n}| == |running| + 1
  {
  }

  lemma FinishOne(n: nat, running: set<nat>, finished: set<nat>, j: nat)
    requires Started(n, running, finished) && j in running
    ensures Started(n, running - {j}, finished + {j}) && |running - {j}| == |running| - 1
  {
  }

  lemma SeatedInOrder(limits: Limits, line: Line)
    requires InOrder(limits, line) && |line.running| < limits.concurrency && line.queue != []
    ensures InOrder(limits, Seated(line)) && |Seated(line).running| == |line.running| + 1
    ensures Drained(limits, line) == Drained(limits, Seated(line))
  {
    StartNext(line.accepted - |line.queue|, line.running, line.finished);
  }

  lemma {:induction false} DrainedInOrder(limits: Limits, line: Line)
    requires InOrder(limits, line)
    ensures InOrder(limits, Drained(limits, line)) && Busy(limits, Drained(limits, line))
    decreases |line.queue|
  {
    if |line.running| < limits.concurrency && line.queue != [] {
      SeatedInOrder(limits, line);
      DrainedInOrder(limits, Seated(line));
    }
  }

  lemma JoinedInOrder(limits: Limits, line: Line)
    requires InOrder(limits, line) && |line.queue| < limits.depth
    ensures InOrder(limits, Joined(line))
  {
  }

  lemma LeftInOrder(limits: Limits, line: Line, j: nat)
    requires InOrder(limits, line) && j in line.running
    ensures InOrder(limits, Left(line, j)) && |Left(line, j).running| == |line.running| - 1
  {
    FinishOne(line.accepted - |line.queue|, line.running, line.finished, j);
  }

  lemma StepInOrder(limits: Limits, line: Line, step: Step)
    requires InOrder(limits, line) && Busy(limits, line)
    ensures InOrder(limits, NextLine(limits, line, step)) && Busy(limits, NextLine(limits, line, step))
  {
    if step.Enqueue? && |line.queue| < limits.depth {
      JoinedInOrder(limits, line);
      DrainedInOrder(limits, Joined(line));
    } else if step.Settle? && step.job in line.running {
      LeftInOrder(limits, line, step.job);
      DrainedInOrder(limits, Left(line, step.job));
    }
  }

  lemma {:induction false} RunInOrder(limits: Limits, env: PairTrace.Env, steps: seq<Step>)
    ensures InOrder(limits, Run(limits, env, steps).line) && Busy(limits, Run(limits, env, steps).line)
  {
    if steps != [] {
      RunInOrder(limits, env, steps[..|steps| - 1]);
      StepInOrder(limits, Run(limits, env, steps[..|steps| - 1]).line, steps[|steps| - 1]);
    }
  }

  /** Waiting jobs within the depth and running ones within the concurrency; no slot idle while a job
      waits; exactly the first `concurrency + finished` accepted jobs, or all of them, started, and
      the others waiting in order. */
  ghost predicate Fifo(limits: Limits, line: Line) {
    && |line.queue| <= limits.depth && |line.running| <= limits.concurrency && Busy(limits, line)
    && line.running !! line.finished
    && line.running + line.finished == FirstJobs(Least(line.accepted, limits.concurrency + |line.finished|))
    && Waiting(line.accepted - |line.queue|, line.queue)
      && |line.running| + |line.finished| + |line.queue| == line.accepted
  }

  lemma InOrderIsFifo(limits: Limits, line: Line)
    requires InOrder(limits, line) && Busy(limits, line)
    ensures Fifo(limits, line)
  {
    StartedAreFirst(line.accepted - |line.queue|, line.running, line.finished);
  }

  /** Every run of arrivals, completions and scoring keeps the queue so. */
  lemma EveryRunIsFifo(limits: Limits, env: PairTrace.Env, steps: seq<Step>)
    ensures Fifo(limits, Run(limits, env, steps).line)
  {
    RunInOrder(limits, env, steps);
    InOrderIsFifo(limits, Run(limits, env, steps).line);
  }

  // ── the queue object ─────────────────────────────────────────────────────────

  /** The object's fields stand for the line: as many jobs wait and run as there, and the started jobs
      followed by the waiting ones are the accepted ones. */
  ghost predicate StandsFor(limits: Limits, line: Line, queue: seq<Job>, active: nat, accepted: seq<Job>,
                            started: seq<Job>) {
    && InOrder(limits, line)
    && active == |line.running| && |queue| == |line.queue| && |accepted| == line.accepted
    && started + queue == accepted
  }

  lemma HeadStarts(limits: Limits, line: Line, queue: seq<Job>, active: nat, accepted: seq<Job>, started: seq<Job>)
    requires StandsFor(limits, line, queue, active, accepted, started) && active < limits.concurrency && queue != []
    ensures line.queue != [] && StandsFor(limits, Seated(line), queue[1..], active + 1, accepted, started + [queue[0]])
    ensures Drained(limits, line) == Drained(limits, Seated(line))
  {
    SeatedInOrder(limits, line);
  }

  lemma NoMoreStart(limits: Limits, line: Line, queue: seq<Job>, active: nat, accepted: seq<Job>, started: seq<Job>)
    requires StandsFor(limits, line, queue, active, accepted, started) && (active >= limits.concurrency || queue == [])
    ensures Drained(limits, line) == line && Busy(limits, line)
  {
  }

  lemma JobJoins(limits: Limits, line: Line, queue: seq<Job>, active: nat, accepted: seq<Job>, started: seq<Job>,
                 job: Job)
    requires StandsFor(limits, line, queue, active, accepted, started) && |queue| < limits.depth
    ensures StandsFor(limits, Joined(line), queue + [job], active, accepted + [job], started)
  {
    JoinedInOrder(limits, line);
  }

  lemma JobLeaves(limits: Limits, line: Line, queue: seq<Job>, active: nat, accepted: seq<Job>, started: seq<Job>,
                  job: nat)
    requires StandsFor(limits, line, queue, active, accepted, started) && job in line.running
    ensures active > 0 && StandsFor(limits, Left(line, job), queue, active - 1, accepted, started)
  {
    LeftInOrder(limits, line, job);
  }

  class ScorerJobQueue {
    const maxQueueDepth: nat
    const concurrency: nat
    var queue: seq<Job>
    var active: nat
    ghost var accepted: seq<Job>
    ghost var started: seq<Job>
    ghost var line: Line

    ghost function Bounds(): Limits
    {
      Limits(maxQueueDepth, concurrency)
    }

    ghost predicate Valid()
      reads this
    {
      Draining() && Busy(Bounds(), line)
    }

    /** Bounded and first in first out, but perhaps with a free slot to fill. */
    ghost predicate Draining()
      reads this
    {
      concurrency >= 1 && StandsFor(Bounds(), line, queue, active, accepted, started)
    }

    constructor (maxQueueDepth: int := 8, concurrency: int := 1)
      ensures Valid() && accepted == [] && line == IDLE.line
      ensures this.maxQueueDepth == (if maxQueueDepth < 0 then 0 else maxQueueDepth)
      ensures this.concurrency == (if concurrency < 1 then 1 else concurrency)
    {
      this.maxQueueDepth := if maxQueueDepth < 0 then 0 else maxQueueDepth;
      this.concurrency := if concurrency < 1 then 1 else concurrency;
      queue, active := [], 0;
      accepted, started, line := [], [], Line(0, [], {}, {});
    }

    /** What has started is determined: the first `concurrency + finished` accepted jobs, or all. */
    lemma StartedExactly()
      requires Valid()
      ensures started == accepted[..Least(|accepted|, concurrency + |line.finished|)]
      ensures active == Least(concurrency, |accepted| - |line.finished|)
    {
    }

    method Drain()
      requires Draining()
      modifies this`queue, this`active, this`started, this`line
      ensures Valid() && line == Drained(Bounds(), old(line))
    {
      ghost var limits, goal, all := Bounds(), Drained(Bounds(), line), accepted;
      while active < concurrency && queue != []
        invariant limits == Bounds() && concurrency >= 1 && accepted == all
        invariant StandsFor(limits, line, queue, active, all, started)
        invariant Drained(limits, line) == goal
        decreases |queue|
      {
        HeadStarts(limits, line, queue, active, all, started);
        started := started + [queue[0]];
        queue := queue[1..];
        active := active + 1;
        line := Seated(line);
      }
      NoMoreStart(limits, line, queue, active, all, started);
    }

    /** False is the 503 answer, which changes nothing. */
    method Enqueue(job: Job) returns (ok: bool)
      requires Valid()
      modifies this
      ensures Valid() && line == NextLine(Bounds(), old(line), Step.Enqueue)
      ensures ok <==> |old(queue)| < maxQueueDepth
      ensures accepted == if ok then old(accepted) + [job] else old(accepted)
    {
      if |queue| >= maxQueueDepth {
        return false;
      }
      JobJoins(Bounds(), line, queue, active, accepted, started, job);
      queue := queue + [job];
      accepted := accepted + [job];
      line := Joined(line);
      Drain();
      ok := true;
    }

    /** A run settled, either way. */
    method RunSettles(ghost job: nat)
      requires Valid() && job in line.running
      modifies this
      ensures Valid() && accepted == old(accepted) && line == NextLine(Bounds(), old(line), Settle(job))
    {
      JobLeaves(Bounds(), line, queue, active, accepted, started, job);
      active := active - 1;
      line := Left(line, job);
      Drain();
    }
  }

  // ── one job at a time ────────────────────────────────────────────────────────

  /** Only running jobs hold calls, and the shared trace is the fold of each one's calls. */
  ghost predicate TraceOfCalls(env: PairTrace.Env, s: Scorer) {
    && s.calls.Keys <= s.line.running
    && forall j :: j in s.calls ==> s.trace == PairTrace.AfterCalls(env, PairTrace.FRESH, s.calls[j])
  }

  lemma OnlyOne(running: set<nat>, i: nat, j: nat)
    requires |running| <= 1 && i in running && j in running
    ensures i == j
  {
    assert |running - {i}| == 0;
  }

  lemma CallsGrow(env: PairTrace.Env, calls: seq<PairTrace.Call>, call: PairTrace.Call)
    ensures PairTrace.AfterCalls(env, PairTrace.FRESH, calls + [call]) ==
            PairTrace.AfterCall(env, PairTrace.AfterCalls(env, PairTrace.FRESH, calls), call)
  {
    assert (calls + [call])[..|calls|] == calls;
  }

  lemma StepTrace(limits: Limits, env: PairTrace.Env, s: Scorer, step: Step)
    requires |s.line.running| <= 1 && TraceOfCalls(env, s)
    ensures TraceOfCalls(env, Next(limits, env, s, step))
  {
    var t := Next(limits, env, s, step);
    forall j | j in t.calls
      ensures t.trace == PairTrace.AfterCalls(env, PairTrace.FRESH, t.calls[j])
    {
      match step
      case Enqueue =>
      case Reset(i) =>
        if i in s.line.running { OnlyOne(s.line.running, i, j); }
      case ScoreCall(i, call) =>
        if i in s.line.running && i in s.calls {
          OnlyOne(s.line.running, i, j);
          CallsGrow(env, s.calls[i], call);
        }
      case Settle(i) =>
    }
  }

  lemma {:induction false} RunTrace(limits: Limits, env: PairTrace.Env, steps: seq<Step>)
    requires limits.concurrency == 1
    ensures TraceOfCalls(env, Run(limits, env, steps))
  {
    if steps != [] {
      RunTrace(limits, env, steps[..|steps| - 1]);
      RunInOrder(limits, env, steps[..|steps| - 1]);
      StepTrace(limits, env, Run(limits, env, steps[..|steps| - 1]), steps[|steps| - 1]);
    }
  }

  /** At concurrency 1, in every run, the snapshot a job takes is the fold of exactly the pairs it
      scored since its reset, in order, however they were split into calls. */
  lemma JobTraceIsItsOwn(limits: Limits, env: PairTrace.Env, steps: seq<Step>, job: nat)
    requires limits.concurrency == 1 && job in Run(limits, env, steps).calls
    requires forall i :: 0 <= i < |Run(limits, env, steps).calls[job]| ==>
               PairTrace.Succeeds(Run(limits, env, steps).calls[job][i])
    ensures var s := Run(limits, env, steps);
            PairTrace.SnapshotOf(env, s.trace) ==
            PairTrace.SnapshotOf(env,
              PairTrace.JobTrace(env, PairTrace.AllPairs(s.calls[job]), PairTrace.AllScores(s.calls[job])))
  {
    RunTrace(limits, env, steps);
    PairTrace.SplitDoesNotMatter(env, Run(limits, env, steps).calls[job]);
  }

  // ── two at a time ────────────────────────────────────────────────────────────

  lemma RunMore(limits: Limits, env: PairTrace.Env, steps: seq<Step>, step: Step)
    ensures Run(limits, env, steps + [step]) == Next(limits, env, Run(limits, env, steps), step)
  {
    assert (steps + [step])[..|steps|] == steps;
  }

  /** A job that arrives while a slot is free starts at once. */
  lemma ArrivalStarts(limits: Limits, line: Line)
    requires |line.running| < limits.concurrency && line.queue == [] && limits.depth >= 1
    ensures NextLine(limits, line, Enqueue) ==
            Line(line.accepted + 1, [], line.running + {line.accepted}, line.finished)
  {
    var joined := Joined(line);
    assert joined.queue[0] == line.accepted && joined.queue[1..] == [];
    assert Drained(limits, joined) ==
           Drained(limits, Line(joined.accepted, [], line.running + {line.accepted}, line.finished));
  }

  lemma TwoStart(limits: Limits, env: PairTrace.Env) returns (steps: seq<Step>)
    requires limits.concurrency >= 2 && limits.depth >= 1
    ensures Run(limits, env, steps).line.running == {0, 1}
  {
    ArrivalStarts(limits, IDLE.line);
    RunMore(limits, env, [], Enqueue);
    var one := Run(limits, env, [] + [Enqueue]).line;
    assert one.running == {0};
    ArrivalStarts(limits, one);
    RunMore(limits, env, [] + [Enqueue], Enqueue);
    steps := [] + [Enqueue] + [Enqueue];
    assert {0} + {1} == {0, 1};
  }

  lemma CallCounts(env: PairTrace.Env, t: PairTrace.Trace, call: PairTrace.Call)
    requires PairTrace.Succeeds(call) && call.pairs != []
    ensures var after := PairTrace.AfterCall(env, t, call);
            after.pairOrder == t.pairOrder + |call.pairs| && after.scoredPairCount == after.pairOrder
  {
  }

  lemma TwoReset(limits: Limits, env: PairTrace.Env) returns (steps: seq<Step>)
    requires limits.concurrency >= 2 && limits.depth >= 1
    ensures var s := Run(limits, env, steps);
            s.line.running == {0, 1} && s.trace == PairTrace.FRESH && 0 in s.calls && 1 in s.calls
              && s.calls[0] == s.calls[1] == []
  {
    steps := TwoStart(limits, env);
    RunMore(limits, env, steps, Reset(0));
    RunMore(limits, env, steps + [Reset(0)], Reset(1));
    steps := steps + [Reset(0)] + [Reset(1)];
  }

  /** At any higher concurrency a run mixes two jobs' pairs: the count a job reports is not its own. */
  lemma TwoJobsMix(limits: Limits, env: PairTrace.Env, call: PairTrace.Call) returns (steps: seq<Step>)
    requires limits.concurrency >= 2 && limits.depth >= 1
    requires PairTrace.Succeeds(call) && call.pairs != []
    ensures var s := Run(limits, env, steps);
            0 in s.calls && s.calls[0] == [call] && s.trace.scoredPairCount == 2 * |call.pairs|
  {
    var reset := TwoReset(limits, env);
    RunMore(limits, env, reset, ScoreCall(0, call));
    RunMore(limits, env, reset + [ScoreCall(0, call)], ScoreCall(1, call));
    steps := reset + [ScoreCall(0, call)] + [ScoreCall(1, call)];
    var first := PairTrace.AfterCall(env, PairTrace.FRESH, call);
    CallCounts(env, PairTrace.FRESH, call);
    CallCounts(env, first, call);
  }
}
