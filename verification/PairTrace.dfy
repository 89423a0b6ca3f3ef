/** The traced reranker: every scored pair is folded, in order, into two hash chains. */
module PairTrace {
  import opened Wrappers
  import CanonicalJson
  import JsonReader

  type Text = CanonicalJson.Text
  type Hash = int

  datatype Pair = Pair(query: Text, document: Text)
  datatype Score = Finite(value: real) | NonFinite

  /** Hashing and number formatting, as given functions; a chain's digest depends on the
      concatenation of its updates. */
  datatype Env = Env(promptHash: Pair -> Text, canonScore: real -> Text, digest: Text -> Hash)

  /** The running chains, as the text they have been fed. */
  datatype Trace = Trace(pairOrder: nat, scoredPairCount: nat, prompts: Text, scores: Text)
  datatype Snapshot = Snapshot(totalScoredPairCount: nat, pairTraceHash: Hash, scoreArrayHash: Hash)

  const FRESH := Trace(0, 0, [], [])
  const NUL: CanonicalJson.Unit := 0
  const NEWLINE: CanonicalJson.Unit := 10

  function Line(order: nat, body: Text): Text {
    CanonicalJson.Digits(order) + [NUL] + body + [NEWLINE]
  }

  function Lines(order: nat, bodies: seq<Text>): Text
    decreases |bodies|
  {
    if bodies == [] then [] else Line(order, bodies[0]) + Lines(order + 1, bodies[1..])
  }

  function PromptHashes(env: Env, pairs: seq<Pair>): (r: seq<Text>)
    ensures |r| == |pairs|
  {
    if pairs == [] then [] else [env.promptHash(pairs[0])] + PromptHashes(env, pairs[1..])
  }

  /** The leading finite scores. */
  function Usable(out: seq<Score>): (r: seq<real>)
    ensures |r| <= |out|
  {
    if out == [] || out[0].NonFinite? then [] else [out[0].value] + Usable(out[1..])
  }

  function ScoreTexts(env: Env, scores: seq<real>): (r: seq<Text>)
    ensures |r| == |scores|
  {
    if scores == [] then [] else [env.canonScore(scores[0])] + ScoreTexts(env, scores[1..])
  }

  /** Pairs and their scores folded onto a trace. */
  function Folded(env: Env, t: Trace, pairs: seq<Pair>, scores: seq<real>): Trace
    requires |pairs| == |scores|
  {
    Trace(t.pairOrder + |pairs|, t.scoredPairCount,
          t.prompts + Lines(t.pairOrder, PromptHashes(env, pairs)),
          t.scores + Lines(t.pairOrder, ScoreTexts(env, scores)))
  }

  datatype Call = Call(pairs: seq<Pair>, out: seq<Score>)

  predicate Succeeds(call: Call) {
    call.pairs == [] || (|call.out| == |call.pairs| && |Usable(call.out)| == |call.out|)
  }

  /** One score() call. A wrong number of scores changes nothing; a non-finite score stops the fold
      where it stands and leaves the count of scored pairs behind. */
  function AfterCall(env: Env, t: Trace, call: Call): Trace {
    if call.pairs == [] || |call.out| != |call.pairs| then t
    else
      var scores := Usable(call.out);
      var folded := Folded(env, t, call.pairs[..|scores|], scores);
      if |scores| < |call.out| then folded else folded.(scoredPairCount := folded.pairOrder)
  }

  function AfterCalls(env: Env, t: Trace, calls: seq<Call>): Trace {
    if calls == [] then t else AfterCall(env, AfterCalls(env, t, calls[..|calls| - 1]), calls[|calls| - 1])
  }

  function SnapshotOf(env: Env, t: Trace): Snapshot {
    Snapshot(t.scoredPairCount, env.digest(t.prompts), env.digest(t.scores))
  }

  // ── a job's trace is one fold ────────────────────────────────────────────────

  function AllPairs(calls: seq<Call>): seq<Pair> {
    if calls == [] then [] else AllPairs(calls[..|calls| - 1]) + calls[|calls| - 1].pairs
  }

  /** The scores returned over the calls; an empty call returns none. */
  function AllScores(calls: seq<Call>): seq<real> {
    if calls == [] then []
    else
      var call := calls[|calls| - 1];
      AllScores(calls[..|calls| - 1]) + if call.pairs == [] then [] else Usable(call.out)
  }

  /** The trace of a job that scores these pairs in one go. */
  function JobTrace(env: Env, pairs: seq<Pair>, scores: seq<real>): Trace {
    Trace(|pairs|, |pairs|, Lines(0, PromptHashes(env, pairs)), Lines(0, ScoreTexts(env, scores)))
  }

  lemma {:induction false} LinesAppend(order: nat, a: seq<Text>, b: seq<Text>)
    ensures Lines(order, a + b) == Lines(order, a) + Lines(order + |a|, b)
    decreases |a|
  {
    if a == [] {
      assert a + b == b;
    } else {
      assert (a + b)[1..] == a[1..] + b;
      LinesAppend(order + 1, a[1..], b);
      assert Lines(order, a + b) == Line(order, a[0]) + (Lines(order + 1, a[1..]) + Lines(order + |a|, b));
    }
  }

  lemma {:induction false} PromptHashesAppend(env: Env, a: seq<Pair>, b: seq<Pair>)
    ensures PromptHashes(env, a + b) == PromptHashes(env, a) + PromptHashes(env, b)
  {
    if a == [] {
      assert a + b == b;
    } else {
      assert (a + b)[1..] == a[1..] + b;
      PromptHashesAppend(env, a[1..], b);
    }
  }

  lemma {:induction false} ScoreTextsAppend(env: Env, a: seq<real>, b: seq<real>)
    ensures ScoreTexts(env, a + b) == ScoreTexts(env, a) + ScoreTexts(env, b)
  {
    if a == [] {
      assert a + b == b;
    } else {
      assert (a + b)[1..] == a[1..] + b;
      ScoreTextsAppend(env, a[1..], b);
    }
  }

  lemma JobTraceGrows(env: Env, pairs: seq<Pair>, scores: seq<real>, more: seq<Pair>, out: seq<real>)
    requires |pairs| == |scores| && |more| == |out|
    ensures var folded := Folded(env, JobTrace(env, pairs, scores), more, out);
            folded.(scoredPairCount := folded.pairOrder) == JobTrace(env, pairs + more, scores + out)
  {
    PromptHashesAppend(env, pairs, more);
    ScoreTextsAppend(env, scores, out);
    LinesAppend(0, PromptHashes(env, pairs), PromptHashes(env, more));
    LinesAppend(0, ScoreTexts(env, scores), ScoreTexts(env, out));
  }

  /** However a job's pairs were split into score() calls, its trace is the fold of the pairs it
      scored, in order, from the start. */
  lemma {:induction false} SplitDoesNotMatter(env: Env, calls: seq<Call>)
    requires forall i :: 0 <= i < |calls| ==> Succeeds(calls[i])
    ensures |AllPairs(calls)| == |AllScores(calls)|
    ensures AfterCalls(env, FRESH, calls) == JobTrace(env, AllPairs(calls), AllScores(calls))
  {
    if calls != [] {
      var init, call := calls[..|calls| - 1], calls[|calls| - 1];
      SplitDoesNotMatter(env, init);
      if call.pairs == [] {
        assert AllPairs(calls) == AllPairs(init) && AllScores(calls) == AllScores(init);
      } else {
        assert call.pairs[..|call.pairs|] == call.pairs;
        JobTraceGrows(env, AllPairs(init), AllScores(init), call.pairs, Usable(call.out));
      }
    }
  }

  // ── a trace identifies its pairs ─────────────────────────────────────────────

  predicate OneLine(t: Text) {
    forall i :: 0 <= i < |t| ==> t[i] != NEWLINE
  }

  /** The text up to the end of its line, and what follows. */
  function ReadBody(t: Text): (r: Option<(Text, Text)>)
    ensures r.Some? ==> |r.value.1| < |t|
  {
    if t == [] then None
    else if t[0] == '\n' as int then Some(([], t[1..]))
    else
      match ReadBody(t[1..])
      case None => None
      case Some((body, rest)) => Some(([t[0]] + body, rest))
  }

  /** A chain, read line by line: a decimal number, a NUL, a body. */
  function ReadLines(t: Text): Option<seq<(int, Text)>>
    decreases |t|
  {
    if t == [] then Some([])
    else
      match JsonReader.ReadNatural(t)
      case None => None
      case Some((n, rest)) =>
        if rest == [] || rest[0] != 0 then None
        else
          match ReadBody(rest[1..])
          case None => None
          case Some((body, end)) =>
            match ReadLines(end)
            case None => None
            case Some(more) => Some([(n, body)] + more)
  }

  lemma {:induction false} BodyReads(body: Text, r: Text)
    requires OneLine(body)
    ensures ReadBody(body + [NEWLINE] + r) == Some((body, r))
  {
    var t := body + [NEWLINE] + r;
    if body == [] {
      assert t[1..] == r;
    } else {
      assert t[1..] == body[1..] + [NEWLINE] + r;
      BodyReads(body[1..], r);
      assert [body[0]] + body[1..] == body;
    }
  }

  lemma LineSplits(order: nat, body: Text, r: Text)
    ensures var rest := [NUL] + (body + [NEWLINE] + r);
            && Line(order, body) + r == CanonicalJson.Digits(order) + rest
            && rest[1..] == body + [NEWLINE] + r
  {
  }

  lemma LineRead(t: Text, n: int, rest: Text, body: Text, end: Text, more: seq<(int, Text)>)
    requires JsonReader.ReadNatural(t) == Some((n, rest)) && rest != [] && rest[0] == 0
    requires ReadBody(rest[1..]) == Some((body, end)) && ReadLines(end) == Some(more)
    ensures ReadLines(t) == Some([(n, body)] + more)
  {
  }

  lemma LineReads(order: nat, body: Text, r: Text, more: seq<(int, Text)>)
    requires OneLine(body) && ReadLines(r) == Some(more)
    ensures ReadLines(Line(order, body) + r) == Some([(order, body)] + more)
  {
    var rest := [NUL] + (body + [NEWLINE] + r);
    LineSplits(order, body, r);
    JsonReader.NaturalReads(order, rest);
    BodyReads(body, r);
    LineRead(Line(order, body) + r, order, rest, body, r, more);
  }

  /** The bodies with the numbers of their lines. */
  function Numbered(order: nat, bodies: seq<Text>): (r: seq<(int, Text)>)
    ensures |r| == |bodies| && forall i :: 0 <= i < |r| ==> r[i] == (order + i, bodies[i])
    decreases |bodies|
  {
    if bodies == [] then [] else [(order, bodies[0])] + Numbered(order + 1, bodies[1..])
  }

  /** The chained text reads back as the chained bodies, numbered one by one. */
  lemma {:induction false} LinesRead(order: nat, bodies: seq<Text>)
    requires forall i :: 0 <= i < |bodies| ==> OneLine(bodies[i])
    ensures ReadLines(Lines(order, bodies)) == Some(Numbered(order, bodies))
    decreases |bodies|
  {
    if bodies != [] {
      var more := Numbered(order + 1, bodies[1..]);
      LinesRead(order + 1, bodies[1..]);
      LineReads(order, bodies[0], Lines(order + 1, bodies[1..]), more);
    }
  }

  /** The chained text determines the chained bodies. */
  lemma LinesInjective(order: nat, a: seq<Text>, b: seq<Text>)
    requires forall i :: 0 <= i < |a| ==> OneLine(a[i])
    requires forall i :: 0 <= i < |b| ==> OneLine(b[i])
    requires Lines(order, a) == Lines(order, b)
    ensures a == b
  {
    LinesRead(order, a);
    LinesRead(order, b);
    SameBodies(order, a, b);
  }

  lemma SameBodies(order: nat, a: seq<Text>, b: seq<Text>)
    requires Numbered(order, a) == Numbered(order, b)
    ensures a == b
  {
    var lines := Numbered(order, a);
    assert |a| == |lines| == |b|;
    forall i | 0 <= i < |a|
      ensures a[i] == b[i]
    {
      assert lines[i] == (order + i, a[i]) == (order + i, b[i]);
    }
  }

  ghost predicate HashesAreOneLine(env: Env) {
    forall p :: OneLine(env.promptHash(p))
  }

  lemma {:induction false} PromptHashAt(env: Env, pairs: seq<Pair>, i: nat)
    requires i < |pairs|
    ensures PromptHashes(env, pairs)[i] == env.promptHash(pairs[i])
  {
    if i > 0 {
      PromptHashAt(env, pairs[1..], i - 1);
    }
  }

  /** Two jobs with the same pair-trace hash scored pairs with the same prompt hashes in the same
      order, if the digest tells their chains apart. */
  lemma TraceIdentifiesPairs(env: Env, calls: seq<Call>, others: seq<Call>)
    requires HashesAreOneLine(env)
    requires forall i :: 0 <= i < |calls| ==> Succeeds(calls[i])
    requires forall i :: 0 <= i < |others| ==> Succeeds(others[i])
    requires var a, b := AfterCalls(env, FRESH, calls).prompts, AfterCalls(env, FRESH, others).prompts;
             env.digest(a) == env.digest(b) ==> a == b
    ensures SnapshotOf(env, AfterCalls(env, FRESH, calls)).pairTraceHash ==
            SnapshotOf(env, AfterCalls(env, FRESH, others)).pairTraceHash
            <==> PromptHashes(env, AllPairs(calls)) == PromptHashes(env, AllPairs(others))
  {
    SplitDoesNotMatter(env, calls);
    SplitDoesNotMatter(env, others);
    var a, b := PromptHashes(env, AllPairs(calls)), PromptHashes(env, AllPairs(others));
    forall i | 0 <= i < |a|
      ensures OneLine(a[i])
    {
      PromptHashAt(env, AllPairs(calls), i);
    }
    forall i | 0 <= i < |b|
      ensures OneLine(b[i])
    {
      PromptHashAt(env, AllPairs(others), i);
    }
    if Lines(0, a) == Lines(0, b) {
      LinesInjective(0, a, b);
    }
  }

  lemma {:induction false} ScoreTextAt(env: Env, scores: seq<real>, i: nat)
    requires i < |scores|
    ensures ScoreTexts(env, scores)[i] == env.canonScore(scores[i])
  {
    if i > 0 {
      ScoreTextAt(env, scores[1..], i - 1);
    }
  }

  ghost predicate ScoresAreOneLine(env: Env) {
    forall x :: OneLine(env.canonScore(x))
  }

  lemma ScoreIsOneLine(env: Env, x: real)
    requires ScoresAreOneLine(env)
    ensures OneLine(env.canonScore(x))
  {
  }

  /** What a job's chains hold, read line by line: line i has the number i and the prompt hash, or the score,
      of the i-th pair over all its calls. */
  lemma JobChainsRead(env: Env, calls: seq<Call>) returns (prompts: seq<(int, Text)>, scored: seq<(int, Text)>)
    requires HashesAreOneLine(env) && ScoresAreOneLine(env)
    requires forall i :: 0 <= i < |calls| ==> Succeeds(calls[i])
    ensures var t := AfterCalls(env, FRESH, calls);
            && ReadLines(t.prompts) == Some(prompts) && ReadLines(t.scores) == Some(scored)
            && t.scoredPairCount == |prompts| == |scored| == |AllPairs(calls)| == |AllScores(calls)|
    ensures forall i :: 0 <= i < |prompts| ==> prompts[i] == (i, env.promptHash(AllPairs(calls)[i]))
    ensures forall i :: 0 <= i < |scored| ==> scored[i] == (i, env.canonScore(AllScores(calls)[i]))
  {
    SplitDoesNotMatter(env, calls);
    prompts := PromptsRead(env, AllPairs(calls));
    scored := ScoresRead(env, AllScores(calls));
  }

  lemma PromptsRead(env: Env, pairs: seq<Pair>) returns (lines: seq<(int, Text)>)
    requires HashesAreOneLine(env)
    ensures ReadLines(Lines(0, PromptHashes(env, pairs))) == Some(lines) && |lines| == |pairs|
    ensures forall i :: 0 <= i < |lines| ==> lines[i] == (i, env.promptHash(pairs[i]))
  {
    var bodies := PromptHashes(env, pairs);
    forall i | 0 <= i < |pairs|
      ensures bodies[i] == env.promptHash(pairs[i])
    {
      PromptHashAt(env, pairs, i);
    }
    LinesRead(0, bodies);
    lines := Numbered(0, bodies);
  }

  lemma ScoresRead(env: Env, scores: seq<real>) returns (lines: seq<(int, Text)>)
    requires ScoresAreOneLine(env)
    ensures ReadLines(Lines(0, ScoreTexts(env, scores))) == Some(lines) && |lines| == |scores|
    ensures forall i :: 0 <= i < |lines| ==> lines[i] == (i, env.canonScore(scores[i]))
  {
    var bodies := ScoreTexts(env, scores);
    forall i | 0 <= i < |scores|
      ensures bodies[i] == env.canonScore(scores[i]) && OneLine(bodies[i])
    {
      ScoreTextAt(env, scores, i);
      ScoreIsOneLine(env, scores[i]);
    }
    LinesRead(0, bodies);
    lines := Numbered(0, bodies);
  }

  lemma {:induction false} UsableUpTo(out: seq<Score>, n: nat)
    requires n <= |out| && (forall i :: 0 <= i < n ==> out[i].Finite?) && (n < |out| ==> out[n].NonFinite?)
    ensures |Usable(out)| == n && forall i :: 0 <= i < n ==> Usable(out)[i] == out[i].value
  {
    if n > 0 {
      UsableUpTo(out[1..], n - 1);
    }
  }

  /** A call fails exactly on a wrong number of scores, which leaves the trace alone, or on a non-finite one:
      the pairs before the first of these are in the chains, and the count stays behind. */
  lemma FailedCall(env: Env, t: Trace, call: Call, n: nat)
    requires call.pairs != [] && |call.out| == |call.pairs| && n < |call.out|
    requires (forall i :: 0 <= i < n ==> call.out[i].Finite?) && call.out[n].NonFinite?
    ensures !Succeeds(call)
    ensures var after := AfterCall(env, t, call);
            && after.pairOrder == t.pairOrder + n && after.scoredPairCount == t.scoredPairCount
            && after.prompts == t.prompts + Lines(t.pairOrder, PromptHashes(env, call.pairs[..n]))
            && exists scores: seq<real> ::
                 && |scores| == n && (forall i :: 0 <= i < n ==> scores[i] == call.out[i].value)
                 && after.scores == t.scores + Lines(t.pairOrder, ScoreTexts(env, scores))
  {
    UsableUpTo(call.out, n);
    var scores := Usable(call.out);
    assert |scores| == n && forall i :: 0 <= i < n ==> scores[i] == call.out[i].value;
  }

  // ── the wrapped reranker ─────────────────────────────────────────────────────

  class TracedReranker {
    const env: Env
    var pairOrder: nat
    var scoredPairCount: nat
    var promptHashChain: Text
    var scoreChain: Text

    ghost function View(): Trace
      reads this
    {
      Trace(pairOrder, scoredPairCount, promptHashChain, scoreChain)
    }

    constructor (env: Env)
      ensures View() == FRESH && this.env == env
    {
      this.env := env;
      pairOrder, scoredPairCount, promptHashChain, scoreChain := 0, 0, [], [];
    }

    /** `out` is what the underlying reranker answers; None is a throw. */
    method Score(pairs: seq<Pair>, out: seq<Score>) returns (r: Option<seq<Score>>)
      modifies this
      ensures View() == AfterCall(env, old(View()), Call(pairs, out))
      ensures r == if !Succeeds(Call(pairs, out)) then None else if pairs == [] then Some([]) else Some(out)
    {
      if pairs == [] {
        return Some([]);
      }
      if |out| != |pairs| {
        return None;
      }
      ghost var before := View();
      for i := 0 to |pairs|
        invariant Folding(before, View(), pairs, out, i)
      {
        FoldOne(env, before, pairs, out, i);
        if out[i].NonFinite? {
          return None;
        }
        promptHashChain := promptHashChain + Line(pairOrder, env.promptHash(pairs[i]));
        scoreChain := scoreChain + Line(pairOrder, env.canonScore(out[i].value));
        pairOrder := pairOrder + 1;
      }
      scoredPairCount := pairOrder;
      FoldDone(env, before, pairs, out);
      r := Some(out);
    }

    /** After `i` pairs the scores so far were finite and the chains have been fed with them. */
    ghost predicate Folding(before: Trace, now: Trace, pairs: seq<Pair>, out: seq<Score>, i: int) {
      && 0 <= i <= |pairs| == |out|
      && |Usable(out[..i])| == i
      && now == Folded(env, before, pairs[..i], Usable(out[..i]))
    }

    method TraceSnapshot() returns (r: Snapshot)
      ensures r == SnapshotOf(env, View())
    {
      r := Snapshot(scoredPairCount, env.digest(promptHashChain), env.digest(scoreChain));
    }

    method ResetTrace()
      modifies this
      ensures View() == FRESH
    {
      pairOrder, scoredPairCount, promptHashChain, scoreChain := 0, 0, [], [];
    }
  }

  lemma {:induction false} UsableGrows(out: seq<Score>, i: nat)
    requires i < |out| && |Usable(out[..i])| == i
    ensures out[i].Finite? ==> Usable(out[..i + 1]) == Usable(out[..i]) + [out[i].value]
    ensures out[i].NonFinite? ==> Usable(out) == Usable(out[..i])
  {
    if i > 0 {
      assert out[..i][1..] == out[1..][..i - 1] && out[..i + 1][1..] == out[1..][..i];
      UsableGrows(out[1..], i - 1);
    }
  }

  /** One turn of the loop. */
  lemma FoldOne(env: Env, t: Trace, pairs: seq<Pair>, out: seq<Score>, i: nat)
    requires i < |pairs| == |out| && |Usable(out[..i])| == i
    ensures out[i].Finite? ==>
              && |Usable(out[..i + 1])| == i + 1
              && Folded(env, t, pairs[..i + 1], Usable(out[..i + 1])) ==
                 OneMore(env, Folded(env, t, pairs[..i], Usable(out[..i])), pairs[i], out[i].value)
    ensures out[i].NonFinite? ==> Usable(out) == Usable(out[..i])
  {
    UsableGrows(out, i);
    if out[i].Finite? {
      assert pairs[..i + 1] == pairs[..i] + [pairs[i]];
      FoldedAppends(env, t, pairs[..i], Usable(out[..i]), pairs[i], out[i].value);
    }
  }

  lemma FoldedAppends(env: Env, t: Trace, pairs: seq<Pair>, scores: seq<real>, p: Pair, x: real)
    requires |pairs| == |scores|
    ensures Folded(env, t, pairs + [p], scores + [x]) == OneMore(env, Folded(env, t, pairs, scores), p, x)
  {
    PromptLinesGrow(env, t.pairOrder, pairs, p);
    ScoreLinesGrow(env, t.pairOrder, scores, x);
    var end := t.pairOrder + |pairs|;
    Regrouped(t.prompts, Lines(t.pairOrder, PromptHashes(env, pairs)), Line(end, env.promptHash(p)));
    Regrouped(t.scores, Lines(t.pairOrder, ScoreTexts(env, scores)), Line(end, env.canonScore(x)));
  }

  lemma Regrouped(a: Text, b: Text, c: Text)
    ensures a + (b + c) == a + b + c
  {
  }

  lemma PromptLinesGrow(env: Env, order: nat, pairs: seq<Pair>, p: Pair)
    ensures Lines(order, PromptHashes(env, pairs + [p]))
            == Lines(order, PromptHashes(env, pairs)) + Line(order + |pairs|, env.promptHash(p))
  {
    PromptHashesAppend(env, pairs, [p]);
    assert PromptHashes(env, [p]) == [env.promptHash(p)];
    LinesGrow(order, PromptHashes(env, pairs), env.promptHash(p));
  }

  lemma ScoreLinesGrow(env: Env, order: nat, scores: seq<real>, x: real)
    ensures Lines(order, ScoreTexts(env, scores + [x]))
            == Lines(order, ScoreTexts(env, scores)) + Line(order + |scores|, env.canonScore(x))
  {
    ScoreTextsAppend(env, scores, [x]);
    assert ScoreTexts(env, [x]) == [env.canonScore(x)];
    LinesGrow(order, ScoreTexts(env, scores), env.canonScore(x));
  }

  lemma LinesGrow(order: nat, bodies: seq<Text>, body: Text)
    ensures Lines(order, bodies + [body]) == Lines(order, bodies) + Line(order + |bodies|, body)
  {
    LinesAppend(order, bodies, [body]);
    assert [body][1..] == [];
    assert Lines(order + |bodies|, [body]) == Line(order + |bodies|, body);
  }

  /** One pair's lines on both chains. */
  function OneMore(env: Env, t: Trace, p: Pair, x: real): Trace {
    Trace(t.pairOrder + 1, t.scoredPairCount, t.prompts + Line(t.pairOrder, env.promptHash(p)),
          t.scores + Line(t.pairOrder, env.canonScore(x)))
  }

  lemma FoldDone(env: Env, t: Trace, pairs: seq<Pair>, out: seq<Score>)
    requires |out| == |pairs| && |Usable(out[..|out|])| == |out|
    ensures |Usable(out)| == |out| && pairs[..|out|] == pairs && out[..|out|] == out
  {
    assert out[..|out|] == out;
  }
}
