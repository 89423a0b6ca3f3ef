/** Length bucketing of reranker prompts: sort, cut into batches, score, scatter back. */
module LengthBuckets {

  type Prompt = int

  // ── the order ────────────────────────────────────────────────────────────────

  /** sorted()'s key: length first, then original index. */
  predicate Before(lengths: seq<nat>, i: nat, j: nat)
    requires i < |lengths| && j < |lengths|
  {
    lengths[i] < lengths[j] || (lengths[i] == lengths[j] && i < j)
  }

  ghost predicate Indices(lengths: seq<nat>, s: seq<nat>) {
    forall k :: 0 <= k < |s| ==> s[k] < |lengths|
  }

  /** Shorter prompts first, prompts of one length by index. */
  ghost predicate Ascending(lengths: seq<nat>, s: seq<nat>)
    requires Indices(lengths, s)
  {
    forall a, b :: 0 <= a < b < |s| ==>
      lengths[s[a]] < lengths[s[b]] || (lengths[s[a]] == lengths[s[b]] && s[a] < s[b])
  }

  function Insert(lengths: seq<nat>, i: nat, s: seq<nat>): (r: seq<nat>)
    requires i < |lengths| && forall k :: 0 <= k < |s| ==> s[k] < |lengths|
    ensures |r| == |s| + 1 && (forall k :: 0 <= k < |r| ==> r[k] < |lengths|)
    ensures multiset(r) == multiset(s) + multiset{i} && forall x :: x in r <==> x == i || x in s
  {
    if s == [] || Before(lengths, i, s[0]) then [i] + s
    else
      assert s == [s[0]] + s[1..];
      [s[0]] + Insert(lengths, i, s[1..])
  }

  /** The first `n` indices, sorted. */
  function SortedTo(lengths: seq<nat>, n: nat): (r: seq<nat>)
    requires n <= |lengths|
    ensures |r| == n && forall x :: x in r ==> x < n
  {
    if n == 0 then []
    else
      var before := SortedTo(lengths, n - 1);
      assert forall k :: 0 <= k < |before| ==> before[k] in before;
      Insert(lengths, n - 1, before)
  }

  function Order(lengths: seq<nat>): (r: seq<nat>)
    ensures |r| == |lengths| && forall k :: 0 <= k < |r| ==> r[k] < |lengths|
  {
    var order := SortedTo(lengths, |lengths|);
    assert forall k :: 0 <= k < |order| ==> order[k] in order;
    order
  }

  function Range(n: nat): (r: seq<nat>)
    ensures |r| == n && forall i :: 0 <= i < n ==> r[i] == i
  {
    if n == 0 then [] else Range(n - 1) + [n - 1]
  }

  lemma {:induction false} InsertAscending(lengths: seq<nat>, i: nat, s: seq<nat>)
    requires i < |lengths| && Indices(lengths, s) && Ascending(lengths, s) && i !in s
    ensures Ascending(lengths, Insert(lengths, i, s))
  {
    if s != [] && !Before(lengths, i, s[0]) {
      var rest := Insert(lengths, i, s[1..]);
      InsertAscending(lengths, i, s[1..]);
      forall b | 0 <= b < |rest|
        ensures Before(lengths, s[0], rest[b])
      {
        assert rest[b] in rest;
        if rest[b] != i {
          var a :| 0 <= a < |s[1..]| && s[1..][a] == rest[b];
          assert s[a + 1] == rest[b];
        }
      }
    }
  }

  lemma RangeGrows(n: nat)
    ensures multiset(Range(n + 1)) == multiset(Range(n)) + multiset{n}
  {
    assert Range(n + 1) == Range(n) + [n];
  }

  lemma {:induction false} SortedToIsRange(lengths: seq<nat>, n: nat)
    requires n <= |lengths|
    ensures multiset(SortedTo(lengths, n)) == multiset(Range(n))
  {
    if n > 0 {
      SortedToIsRange(lengths, n - 1);
      RangeGrows(n - 1);
    }
  }

  lemma {:induction false} SortedToAscends(lengths: seq<nat>, n: nat)
    requires n <= |lengths|
    ensures Indices(lengths, SortedTo(lengths, n)) && Ascending(lengths, SortedTo(lengths, n))
  {
    if n > 0 {
      SortedToAscends(lengths, n - 1);
      InsertAscending(lengths, n - 1, SortedTo(lengths, n - 1));
    }
  }

  /** The order is a rearrangement of the indices with ascending keys. */
  lemma OrderIsSortedRange(lengths: seq<nat>)
    ensures multiset(Order(lengths)) == multiset(Range(|lengths|)) && Ascending(lengths, Order(lengths))
  {
    SortedToIsRange(lengths, |lengths|);
    SortedToAscends(lengths, |lengths|);
  }

  /** There is only one: whatever sorting algorithm is used, the order is the same. */
  lemma {:induction false} AscendingUnique(lengths: seq<nat>, s: seq<nat>, t: seq<nat>)
    requires Indices(lengths, s) && Indices(lengths, t) && Ascending(lengths, s) && Ascending(lengths, t)
    requires multiset(s) == multiset(t)
    ensures s == t
    decreases |s|
  {
    if s == [] || t == [] {
      assert |multiset(s)| == |multiset(t)|;
    } else {
      LeastHead(lengths, s, t);
      assert multiset(s[1..]) == multiset(s) - multiset{s[0]} by { assert s == [s[0]] + s[1..]; }
      assert multiset(t[1..]) == multiset(t) - multiset{t[0]} by { assert t == [t[0]] + t[1..]; }
      AscendingUnique(lengths, s[1..], t[1..]);
      assert s == [s[0]] + s[1..] && t == [t[0]] + t[1..];
    }
  }

  lemma LeastHead(lengths: seq<nat>, s: seq<nat>, t: seq<nat>)
    requires Indices(lengths, s) && Indices(lengths, t) && Ascending(lengths, s) && Ascending(lengths, t)
    requires multiset(s) == multiset(t) && s != [] && t != []
    ensures s[0] == t[0]
  {
    assert s[0] in multiset(t) && t[0] in multiset(s);
    var a :| 0 <= a < |t| && t[a] == s[0];
    var b :| 0 <= b < |s| && s[b] == t[0];
  }

  // ── buckets ──────────────────────────────────────────────────────────────────

  function Buckets(order: seq<nat>, batch: nat): (r: seq<seq<nat>>)
    requires batch >= 1
    decreases |order|
  {
    if order == [] then []
    else if |order| <= batch then [order]
    else [order[..batch]] + Buckets(order[batch..], batch)
  }

  function Flat(buckets: seq<seq<nat>>): seq<nat> {
    if buckets == [] then [] else buckets[0] + Flat(buckets[1..])
  }

  /** Every bucket but the last is full, and the last is neither empty nor too large. */
  ghost predicate Full(buckets: seq<seq<nat>>, batch: nat) {
    && (forall k :: 0 <= k < |buckets| - 1 ==> |buckets[k]| == batch)
    && (buckets != [] ==> 1 <= |buckets[|buckets| - 1]| <= batch)
  }

  lemma {:induction false} BucketsCut(order: seq<nat>, batch: nat)
    requires batch >= 1
    ensures Flat(Buckets(order, batch)) == order && Full(Buckets(order, batch), batch)
    ensures order != [] ==> Buckets(order, batch) != []
    decreases |order|
  {
    if |order| > batch {
      var rest := Buckets(order[batch..], batch);
      BucketsCut(order[batch..], batch);
      assert order == order[..batch] + order[batch..];
      assert ([order[..batch]] + rest)[1..] == rest;
    } else if order != [] {
      assert [order][1..] == [];
      assert order + [] == order;
    }
  }

  // ── scoring ──────────────────────────────────────────────────────────────────

  /** The per-prompt scores: batching does not show in them. */
  function Scores(score: Prompt -> real, prompts: seq<Prompt>): (r: seq<real>)
    ensures |r| == |prompts| && forall i :: 0 <= i < |r| ==> r[i] == score(prompts[i])
  {
    if prompts == [] then [] else Scores(score, prompts[..|prompts| - 1]) + [score(prompts[|prompts| - 1])]
  }

  method ScoreChunk(score: Prompt -> real, chunk: seq<Prompt>) returns (scores: seq<real>)
    ensures scores == Scores(score, chunk)
  {
    scores := [];
    for i := 0 to |chunk|
      invariant scores == Scores(score, chunk[..i])
    {
      assert chunk[..i + 1][..i] == chunk[..i];
      scores := scores + [score(chunk[i])];
    }
    assert chunk[..|chunk|] == chunk;
  }

  lemma ScoresAppend(score: Prompt -> real, a: seq<Prompt>, b: seq<Prompt>)
    ensures Scores(score, a + b) == Scores(score, a) + Scores(score, b)
  {
  }

  /** What a call returns; a zero step makes Python's range throw. */
  datatype Outcome = ValueError | Returned(scores: seq<real>)

  lemma TakeChunk(score: Prompt -> real, prompts: seq<Prompt>, start: nat, end: nat)
    requires start <= end <= |prompts|
    ensures Scores(score, prompts[..start]) + Scores(score, prompts[start..end]) == Scores(score, prompts[..end])
  {
    ScoresAppend(score, prompts[..start], prompts[start..end]);
    assert prompts[..start] + prompts[start..end] == prompts[..end];
  }

  method ArrivalOrderLoop(score: Prompt -> real, prompts: seq<Prompt>, innerBatch: nat) returns (scores: seq<real>)
    requires innerBatch >= 1
    ensures scores == Scores(score, prompts)
  {
    scores := [];
    var start := 0;
    while start < |prompts|
      invariant 0 <= start <= |prompts| && scores == Scores(score, prompts[..start])
      decreases |prompts| - start
    {
      var end := if start + innerBatch < |prompts| then start + innerBatch else |prompts|;
      var chunk := ScoreChunk(score, prompts[start..end]);
      TakeChunk(score, prompts, start, end);
      scores, start := scores + chunk, end;
    }
    assert prompts[..|prompts|] == prompts;
  }

  /** The legacy loop. A negative batch gives an empty range, so no scores at all; the plain scores
      come out exactly for a positive batch or no prompts. */
  method LegacyScores(score: Prompt -> real, prompts: seq<Prompt>, innerBatch: int) returns (r: Outcome)
    ensures r == Returned(Scores(score, prompts)) <==> innerBatch >= 1 || prompts == []
    ensures r == ValueError <==> innerBatch == 0 && prompts != []
    ensures r.Returned? && innerBatch < 1 ==> r.scores == []
  {
    if prompts == [] {
      return Returned([]);
    }
    if innerBatch == 0 {
      return ValueError;
    }
    if innerBatch < 0 {
      return Returned([]);
    }
    var scores := ArrivalOrderLoop(score, prompts, innerBatch);
    r := Returned(scores);
  }

  method LengthBucketedOrder(lengths: seq<nat>, innerBatch: int) returns (buckets: seq<seq<nat>>)
    ensures buckets == Buckets(Order(lengths), if innerBatch < 1 then 1 else innerBatch)
  {
    var batch: nat := if innerBatch < 1 then 1 else innerBatch;
    var order := Order(lengths);
    buckets := [];
    var s := 0;
    while s < |order|
      invariant 0 <= s <= |order| && Buckets(order, batch) == buckets + Buckets(order[s..], batch)
      decreases |order| - s
    {
      var end := if s + batch < |order| then s + batch else |order|;
      BucketStep(order[s..], batch);
      assert order[s..][..end - s] == order[s..end] && order[s..][end - s..] == order[end..];
      buckets, s := buckets + [order[s..end]], end;
    }
  }

  lemma BucketStep(rest: seq<nat>, batch: nat)
    requires batch >= 1 && rest != []
    ensures var n := if |rest| < batch then |rest| else batch;
            Buckets(rest, batch) == [rest[..n]] + Buckets(rest[n..], batch)
  {
    if |rest| <= batch {
      assert rest[..|rest|] == rest && rest[|rest|..] == [];
      assert [rest] + [] == [rest];
    }
  }

  /** One bucket's scores written back. */
  method ScatterBucket(score: Prompt -> real, prompts: seq<Prompt>, bucket: seq<nat>, out: array<real>)
    requires out.Length == |prompts| && forall m :: 0 <= m < |bucket| ==> bucket[m] < |prompts|
    modifies out
    ensures forall i :: 0 <= i < |prompts| ==> out[i] == if i in bucket then score(prompts[i]) else old(out[i])
  {
    var chunk := seq(|bucket|, m requires 0 <= m < |bucket| => prompts[bucket[m]]);
    var chunkScores := ScoreChunk(score, chunk);
    for m := 0 to |bucket|
      invariant forall i :: 0 <= i < |prompts| ==> out[i] == if i in bucket[..m] then score(prompts[i]) else old(out[i])
    {
      out[bucket[m]] := chunkScores[m];
    }
    assert bucket[..|bucket|] == bucket;
  }

  /** Bucket by bucket, every score back to its prompt's place. */
  method ScatterScores(score: Prompt -> real, prompts: seq<Prompt>, buckets: seq<seq<nat>>) returns (scores: seq<real>)
    requires forall k :: 0 <= k < |buckets| ==> forall m :: 0 <= m < |buckets[k]| ==> buckets[k][m] < |prompts|
    ensures |scores| == |prompts|
    ensures forall i :: 0 <= i < |prompts| ==> scores[i] == if i in Flat(buckets) then score(prompts[i]) else 0.0
  {
    var out := new real[|prompts|](_ => 0.0);
    for k := 0 to |buckets|
      invariant forall i :: 0 <= i < |prompts| ==> out[i] == if i in Flat(buckets[..k]) then score(prompts[i]) else 0.0
    {
      ScatterBucket(score, prompts, buckets[k], out);
      FlatMore(buckets[..k], buckets[k]);
      assert buckets[..k + 1] == buckets[..k] + [buckets[k]];
    }
    assert buckets[..|buckets|] == buckets;
    scores := out[..];
  }

  lemma {:induction false} FlatMore(buckets: seq<seq<nat>>, bucket: seq<nat>)
    ensures Flat(buckets + [bucket]) == Flat(buckets) + bucket
  {
    if buckets == [] {
      assert [bucket][1..] == [];
      assert bucket + [] == bucket;
    } else {
      assert (buckets + [bucket])[1..] == buckets[1..] + [bucket];
      FlatMore(buckets[1..], bucket);
    }
  }

  lemma {:induction false} FlatBelow(buckets: seq<seq<nat>>, n: nat, k: nat, m: nat)
    requires (forall x :: x in Flat(buckets) ==> x < n) && k < |buckets| && m < |buckets[k]|
    ensures buckets[k][m] < n
  {
    assert forall x :: x in Flat(buckets[1..]) ==> x in Flat(buckets);
    if k > 0 {
      FlatBelow(buckets[1..], n, k - 1, m);
    } else {
      assert buckets[0][m] in Flat(buckets);
    }
  }

  /** Every bucket list partitions the indices in order of length, all but the last bucket full. */
  lemma BucketsPartition(lengths: seq<nat>, batch: nat)
    requires batch >= 1
    ensures var buckets := Buckets(Order(lengths), batch);
            && Full(buckets, batch)
            && multiset(Flat(buckets)) == multiset(Range(|lengths|))
            && Indices(lengths, Flat(buckets)) && Ascending(lengths, Flat(buckets))
  {
    BucketsCut(Order(lengths), batch);
    OrderIsSortedRange(lengths);
  }

  lemma EveryIndexHasABucket(lengths: seq<nat>, batch: nat)
    requires batch >= 1
    ensures var buckets := Buckets(Order(lengths), batch);
            && (forall i: nat :: i in Flat(buckets) <==> i < |lengths|)
            && (forall k :: 0 <= k < |buckets| ==> forall m :: 0 <= m < |buckets[k]| ==> buckets[k][m] < |lengths|)
  {
    var buckets := Buckets(Order(lengths), batch);
    BucketsPartition(lengths, batch);
    forall i: nat
      ensures i in Flat(buckets) <==> i < |lengths|
    {
      assert i in Flat(buckets) <==> i in multiset(Flat(buckets));
      assert i in Range(|lengths|) <==> i in multiset(Range(|lengths|));
      if i < |lengths| {
        assert Range(|lengths|)[i] == i;
      }
    }
    forall k, m | 0 <= k < |buckets| && 0 <= m < |buckets[k]|
      ensures buckets[k][m] < |lengths|
    {
      FlatBelow(buckets, |lengths|, k, m);
    }
  }

  /** The default path of _score_pairs. For every prompt list, length function, batch size and
      per-prompt score it returns what the plain loop over the prompts returns. */
  method BucketedScores(score: Prompt -> real, tokens: Prompt -> nat, prompts: seq<Prompt>, innerBatch: int)
    returns (r: Outcome)
    ensures r == Returned(Scores(score, prompts))
  {
    if prompts == [] {
      return Returned([]);
    }
    var lengths := seq(|prompts|, i requires 0 <= i < |prompts| => tokens(prompts[i]));
    var buckets := LengthBucketedOrder(lengths, innerBatch);
    EveryIndexHasABucket(lengths, if innerBatch < 1 then 1 else innerBatch);
    var scores := ScatterScores(score, prompts, buckets);
    assert scores == Scores(score, prompts);
    r := Returned(scores);
  }
}
