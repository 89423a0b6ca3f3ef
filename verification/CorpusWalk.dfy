/** Corpus auto-resolution: the bounded forward walk along the published delta chain, the choice of
    its start, and the cache of materialized corpora. */
module CorpusWalk {
  import opened Wrappers
  import CorpusDelta

  type Hash = CorpusDelta.Hash
  datatype Fetched<+D> = FetchThrows | NotPublished | Published(delta: D)

  /** What the walk is given: the delta source, the signature gate, apply and the root functions. */
  datatype Deps<!C, !D> = Deps(fetch: int -> Fetched<D>, verified: D -> bool, apply: (C, D) -> Option<C>,
                               rootField: C -> Hash, computeRoot: C -> Hash)

  datatype Reason =
    | FetchFailed(epoch: int)
    | Unpublished(epoch: int)
    | BadSignature(epoch: int)
    | ApplyFailed(epoch: int)
    | MerkleMismatch
    | NotReached
  datatype Resolution<+C> = Resolved(corpus: C, appliedEpochs: seq<int>) | Refused(reason: Reason)

  // ── the chain ────────────────────────────────────────────────────────────────

  /** One published, signature-checked delta applied. */
  function Advanced<C, D>(deps: Deps<C, D>, corpus: C, epoch: int): Option<C> {
    match deps.fetch(epoch)
    case FetchThrows => None
    case NotPublished => None
    case Published(d) => if deps.verified(d) then deps.apply(corpus, d) else None
  }

  /** The fold of `k` consecutive deltas from epoch `from`. */
  function Folded<C, D>(deps: Deps<C, D>, base: C, from: int, k: nat): Option<C>
    decreases k
  {
    if k == 0 then Some(base)
    else
      var before := Folded(deps, base, from, k - 1);
      if before.None? then None else Advanced(deps, before.value, from + k - 1)
  }

  function Range(from: int, n: nat): (r: seq<int>)
    ensures |r| == n && forall i :: 0 <= i < n ==> r[i] == from + i
  {
    if n == 0 then [] else Range(from, n - 1) + [from + n - 1]
  }

  ghost predicate Reaches<C(!new), D(!new)>(deps: Deps<C, D>, base: C, target: Hash, from: int, k: nat) {
    Folded(deps, base, from, k).Some? && deps.rootField(Folded(deps, base, from, k).value) == target
  }

  /** The walk stops at the first corpus that carries the target root. */
  ghost predicate FirstReach<C(!new), D(!new)>(deps: Deps<C, D>, base: C, target: Hash, from: int, k: nat) {
    Reaches(deps, base, target, from, k) && forall j :: 1 <= j < k ==> !Reaches(deps, base, target, from, j)
  }

  ghost predicate Resolves<C(!new), D(!new)>(deps: Deps<C, D>, base: C, target: Hash, from: int, maxDeltas: int) {
    || deps.computeRoot(base) == target
    || exists k: nat :: 1 <= k <= maxDeltas && FirstReach(deps, base, target, from, k)
                        && deps.computeRoot(Folded(deps, base, from, k).value) == target
  }

  lemma {:induction false} FoldedStops<C, D>(deps: Deps<C, D>, base: C, from: int, j: nat, k: nat)
    requires j <= k && Folded(deps, base, from, j).None?
    ensures Folded(deps, base, from, k).None?
  {
    if j < k {
      FoldedStops(deps, base, from, j, k - 1);
    }
  }

  /** Step j of a walk: a published delta that passes the signature gate and applies. */
  ghost predicate SignedStep<C(!new), D(!new)>(deps: Deps<C, D>, base: C, from: int, j: nat) {
    && Folded(deps, base, from, j).Some? && Folded(deps, base, from, j + 1).Some?
    && deps.fetch(from + j).Published? && deps.verified(deps.fetch(from + j).delta)
    && deps.apply(Folded(deps, base, from, j).value, deps.fetch(from + j).delta) == Folded(deps, base, from, j + 1)
  }

  /** A corpus is reached by k deltas exactly if every one of them was published, signed and applied, in turn. */
  lemma {:induction false} WalkIsSigned<C(!new), D(!new)>(deps: Deps<C, D>, base: C, from: int, k: nat)
    ensures Folded(deps, base, from, 0) == Some(base)
    ensures Folded(deps, base, from, k).Some? <==> forall j: nat :: j < k ==> SignedStep(deps, base, from, j)
  {
    if k > 0 {
      WalkIsSigned(deps, base, from, k - 1);
      assert Folded(deps, base, from, k).Some? <==>
             Folded(deps, base, from, k - 1).Some? && SignedStep(deps, base, from, k - 1);
    }
  }

  /** What a refusal means: the last delta fetched could not be used, for the reason given; or the first corpus
      with the target root merkleizes to another; or the bound is reached without one. */
  ghost predicate RefusedBecause<C(!new), D(!new)>(deps: Deps<C, D>, base: C, target: Hash, from: int, maxDeltas: int,
                                                  fetched: nat, reason: Reason) {
    var last := from + fetched - 1;
    match reason
    case FetchFailed(e) => fetched > 0 && e == last && deps.fetch(e).FetchThrows?
    case Unpublished(e) => fetched > 0 && e == last && deps.fetch(e).NotPublished?
    case BadSignature(e) =>
      fetched > 0 && e == last && deps.fetch(e).Published? && !deps.verified(deps.fetch(e).delta)
    case ApplyFailed(e) =>
      && fetched > 0 && e == last && deps.fetch(e).Published? && deps.verified(deps.fetch(e).delta)
      && Folded(deps, base, from, fetched - 1).Some?
      && deps.apply(Folded(deps, base, from, fetched - 1).value, deps.fetch(e).delta).None?
    case MerkleMismatch =>
      && fetched > 0 && FirstReach(deps, base, target, from, fetched)
      && deps.computeRoot(Folded(deps, base, from, fetched).value) != target
    case NotReached =>
      && fetched == (if maxDeltas < 0 then 0 else maxDeltas) && Folded(deps, base, from, fetched).Some?
      && Unreached(deps, base, target, from, fetched)
  }

  /** autoResolveCorpusByRoot. It resolves exactly when the base is the target, or the first corpus
      along the chain that carries the target root is within the bound and merkleizes to it; the
      result is then the fold of consecutive deltas and nothing past the bound is fetched. */
  method AutoResolveCorpusByRoot<C(!new), D(!new)>(deps: Deps<C, D>, base: C, target: Hash, fromEpoch: int,
                                                   maxDeltas: int)
    returns (r: Resolution<C>, fetched: seq<int>, materialized: seq<C>)
    ensures r.Resolved? <==> Resolves(deps, base, target, fromEpoch, maxDeltas)
    ensures r.Resolved? ==>
              && deps.computeRoot(r.corpus) == target
              && Folded(deps, base, fromEpoch, |r.appliedEpochs|) == Some(r.corpus)
              && r.appliedEpochs == fetched
    ensures fetched == Range(fromEpoch, |fetched|) && (|fetched| == 0 || |fetched| <= maxDeltas)
    ensures |fetched| - 1 <= |materialized| <= |fetched|
    ensures Materialized(deps, base, fromEpoch, materialized)
    ensures r.Refused? ==> RefusedBecause(deps, base, target, fromEpoch, maxDeltas, |fetched|, r.reason)
  {
    fetched, materialized := [], [];
    if deps.computeRoot(base) == target {
      return Resolved(base, []), fetched, materialized;
    }
    var corpus := base;
    var i: nat := 0;
    while i < maxDeltas
      invariant i <= maxDeltas || i == 0
      invariant fetched == Range(fromEpoch, i) && |materialized| == i
                && Materialized(deps, base, fromEpoch, materialized)
      invariant Folded(deps, base, fromEpoch, i) == Some(corpus)
      invariant Unreached(deps, base, target, fromEpoch, i)
    {
      var epoch := fromEpoch + i;
      var answer := deps.fetch(epoch);
      fetched := fetched + [epoch];
      var next := Advanced(deps, corpus, epoch);
      if next.None? {
        NothingReached(deps, base, target, fromEpoch, i, maxDeltas);
        r := Refused(match answer
                     case FetchThrows => FetchFailed(epoch)
                     case NotPublished => Unpublished(epoch)
                     case Published(d) => if !deps.verified(d) then BadSignature(epoch) else ApplyFailed(epoch));
        return;
      }
      corpus := next.value;
      materialized := materialized + [corpus];
      i := i + 1;
      if deps.rootField(corpus) == target {
        ReachedHere(deps, base, target, fromEpoch, i, maxDeltas);
        if deps.computeRoot(corpus) != target {
          return Refused(MerkleMismatch), fetched, materialized;
        }
        return Resolved(corpus, fetched), fetched, materialized;
      }
    }
    NothingReached(deps, base, target, fromEpoch, i, maxDeltas);
    r := Refused(NotReached);
  }

  ghost predicate Unreached<C(!new), D(!new)>(deps: Deps<C, D>, base: C, target: Hash, from: int, i: int) {
    forall j :: 1 <= j <= i ==> !Reaches(deps, base, target, from, j)
  }

  lemma NothingReached<C(!new), D(!new)>(deps: Deps<C, D>, base: C, target: Hash, from: int, i: nat, maxDeltas: int)
    requires deps.computeRoot(base) != target && Unreached(deps, base, target, from, i)
    requires maxDeltas <= i || Folded(deps, base, from, i + 1).None?
    ensures !Resolves(deps, base, target, from, maxDeltas)
  {
    forall k: nat | i < k <= maxDeltas
      ensures Folded(deps, base, from, k).None?
    {
      FoldedStops(deps, base, from, i + 1, k);
    }
  }

  lemma ReachedHere<C(!new), D(!new)>(deps: Deps<C, D>, base: C, target: Hash, from: int, i: nat, maxDeltas: int)
    requires deps.computeRoot(base) != target && Unreached(deps, base, target, from, i - 1)
    requires 1 <= i <= maxDeltas && Reaches(deps, base, target, from, i)
    ensures Resolves(deps, base, target, from, maxDeltas) <==>
              deps.computeRoot(Folded(deps, base, from, i).value) == target
  {
    assert FirstReach(deps, base, target, from, i);
    assert forall k: nat :: 1 <= k && FirstReach(deps, base, target, from, k) ==> k == i;
  }

  /** The corpora handed to onMaterialized. */
  ghost predicate Materialized<C(!new), D(!new)>(deps: Deps<C, D>, base: C, from: int, corpora: seq<C>) {
    forall j :: 0 <= j < |corpora| ==> Folded(deps, base, from, j + 1) == Some(corpora[j])
  }

  // ── where to start ───────────────────────────────────────────────────────────

  datatype Known<+C> = Known(corpus: C, epoch: int)
  datatype WalkStart<+C> = WalkStart(start: C, fromEpoch: int, maxDeltas: int)

  ghost predicate Nearest<C>(candidates: seq<Known<C>>, bound: int, i: int) {
    && 0 <= i < |candidates| && candidates[i].epoch <= bound
    && (forall j :: 0 <= j < |candidates| && candidates[j].epoch <= bound ==>
          candidates[j].epoch <= candidates[i].epoch)
    && (forall j :: 0 <= j < i ==> candidates[j].epoch != candidates[i].epoch)
  }

  /** chooseAutoResolveWalkStart: the nearest known corpus strictly before the bound, the first one
      offered on ties; none when there is no ancestor or one sits at the bound already. */
  method ChooseAutoResolveWalkStart<C>(candidates: seq<Known<C>>, targetEpochBound: int)
    returns (r: Option<WalkStart<C>>, ghost at: int)
    ensures r.None? <==> (forall i :: 0 <= i < |candidates| ==> candidates[i].epoch > targetEpochBound)
                         || (exists i :: 0 <= i < |candidates| && candidates[i].epoch == targetEpochBound)
    ensures r.Some? ==> Nearest(candidates, targetEpochBound, at) && candidates[at].epoch < targetEpochBound
    ensures r.Some? ==>
              var best := candidates[at];
              r.value == WalkStart(best.corpus, best.epoch + 1, targetEpochBound - best.epoch)
  {
    var best := -1;
    for n := 0 to |candidates|
      invariant best == -1 ==> forall j :: 0 <= j < n ==> candidates[j].epoch > targetEpochBound
      invariant best != -1 ==> 0 <= best < n && Nearest(candidates[..n], targetEpochBound, best)
    {
      var c := candidates[n];
      if c.epoch <= targetEpochBound && (best == -1 || c.epoch > candidates[best].epoch) {
        best := n;
      }
    }
    assert candidates[..|candidates|] == candidates;
    at := best;
    if best == -1 || candidates[best].epoch >= targetEpochBound {
      return None, at;
    }
    var gap := targetEpochBound - candidates[best].epoch;
    return Some(WalkStart(candidates[best].corpus, candidates[best].epoch + 1, if gap > 1 then gap else 1)), at;
  }

  lemma RangeBelow(from: int, n: nat, bound: int)
    requires from + n <= bound + 1
    ensures forall e :: e in Range(from, n) ==> from <= e <= bound
  {
  }

  /** One backlog entry's resolution: no delta past the target epoch bound is ever fetched. */
  method ResolveEntry<C(!new), D(!new)>(deps: Deps<C, D>, candidates: seq<Known<C>>, target: Hash, bound: int)
    returns (r: Option<Resolution<C>>, fetched: seq<int>, ghost at: int)
    ensures forall e :: e in fetched ==> e <= bound
    ensures r.None? <==> (forall i :: 0 <= i < |candidates| ==> candidates[i].epoch > bound)
                         || (exists i :: 0 <= i < |candidates| && candidates[i].epoch == bound)
    ensures r.Some? ==> Nearest(candidates, bound, at) && candidates[at].epoch < bound
    ensures r.Some? ==> (r.value.Resolved? <==>
              Resolves(deps, candidates[at].corpus, target, candidates[at].epoch + 1, bound - candidates[at].epoch))
    ensures r.Some? && r.value.Resolved? ==>
              && deps.computeRoot(r.value.corpus) == target
              && r.value.appliedEpochs == Range(candidates[at].epoch + 1, |r.value.appliedEpochs|)
              && Folded(deps, candidates[at].corpus, candidates[at].epoch + 1, |r.value.appliedEpochs|) ==
                Some(r.value.corpus)
  {
    var start;
    start, at := ChooseAutoResolveWalkStart(candidates, bound);
    if start.None? {
      return None, [], at;
    }
    var resolution, epochs, _ :=
      AutoResolveCorpusByRoot(deps, start.value.start, target, start.value.fromEpoch, start.value.maxDeltas);
    RangeBelow(start.value.fromEpoch, |epochs|, bound);
    return Some(resolution), epochs, at;
  }

  // ── the deps the validator wires in ──────────────────────────────────────────

  type Corpus = CorpusDelta.Corpus
  type SignedDelta = CorpusDelta.Delta<CorpusDelta.Event>

  /** withVerifiedCorpusRootCache: an existing cache is kept if its root is the corpus root. */
  function WithRootCache(env: CorpusDelta.Env, c: Corpus): Option<Corpus> {
    if c.rootCache.Some? && c.rootCache.value.root == c.corpusRoot then Some(c)
    else
      var cache := CorpusDelta.FullCache(env, c.events);
      if cache.root != c.corpusRoot then None else Some(c.(rootCache := Some(cache)))
  }

  function WiredApply(env: CorpusDelta.Env, c: Corpus, d: SignedDelta): Option<Corpus> {
    var cached := WithRootCache(env, c);
    if cached.None? then None
    else
      var next := CorpusDelta.Apply(env, cached.value, d, CorpusDelta.ApplyOptions(cached.value.rootCache, true, true));
      if next.Ok? then Some(next.value) else None
  }

  /** The deps apply deltas through the verified cache and recompute roots from the records; the
      delta source and the signature gate are whatever they are. */
  ghost predicate Wired(env: CorpusDelta.Env, deps: Deps<Corpus, SignedDelta>) {
    && (forall c, d :: deps.apply(c, d) == WiredApply(env, c, d))
    && (forall c :: deps.rootField(c) == c.corpusRoot)
    && (forall c :: deps.computeRoot(c) == CorpusDelta.ComputeRoot(env, c.events))
  }

  ghost predicate Kept(env: CorpusDelta.Env, c: Corpus) {
    CorpusDelta.CacheFits(env, c.rootCache, c.events) && c.corpusRoot == CorpusDelta.ComputeRoot(env, c.events)
  }

  lemma WiredSound(env: CorpusDelta.Env, c: Corpus, d: SignedDelta)
    requires CorpusDelta.CacheFits(env, c.rootCache, c.events) && WiredApply(env, c, d).Some?
    ensures Kept(env, WiredApply(env, c, d).value)
    ensures d.previousRoot == c.corpusRoot && WiredApply(env, c, d).value.corpusRoot == d.nextRoot
    ensures WiredApply(env, c, d).value.rootCache.Some?
  {
    var cached := WithRootCache(env, c).value;
    CorpusDelta.AppliedIsSound(env, cached, d, CorpusDelta.ApplyOptions(cached.rootCache, true, true));
  }

  /** A verified cache is at hand exactly for a corpus that carries its own recomputed root, and it is the cache
      of the corpus' records. */
  lemma VerifiedCacheIff(env: CorpusDelta.Env, c: Corpus)
    requires CorpusDelta.CacheFits(env, c.rootCache, c.events)
    ensures WithRootCache(env, c).Some? <==> c.corpusRoot == CorpusDelta.ComputeRoot(env, c.events)
    ensures WithRootCache(env, c).Some? ==>
              WithRootCache(env, c).value == c.(rootCache := Some(CorpusDelta.FullCache(env, c.events)))
  {
  }

  /** The validator's apply succeeds exactly on a corpus with its own root and a delta that fits and announces the
      root of the next records. */
  lemma WiredAppliesIff(env: CorpusDelta.Env, c: Corpus, d: SignedDelta)
    requires CorpusDelta.CacheFits(env, c.rootCache, c.events)
    ensures WiredApply(env, c, d).Some? <==>
            && c.corpusRoot == CorpusDelta.ComputeRoot(env, c.events)
            && CorpusDelta.Fits(env, c, d) && CorpusDelta.RootFits(env, c, d, true, true)
  {
    VerifiedCacheIff(env, c);
    if WithRootCache(env, c).Some? {
      var cached := WithRootCache(env, c).value;
      CorpusDelta.AppliesIff(env, cached, d, CorpusDelta.ApplyOptions(cached.rootCache, true, true));
    }
  }

  /** What the walk needs of its deps: roots are read off and recomputed, and applying a delta gives a
      corpus that carries its own recomputed root. */
  ghost predicate RootsKept(env: CorpusDelta.Env, deps: Deps<Corpus, SignedDelta>) {
    && (forall c :: deps.rootField(c) == c.corpusRoot)
    && (forall c :: deps.computeRoot(c) == CorpusDelta.ComputeRoot(env, c.events))
    && (forall c, d :: Kept(env, c) && deps.apply(c, d).Some? ==> Kept(env, deps.apply(c, d).value))
  }

  /** The validator's own deps are such. */
  lemma WiredKeepsRoots(env: CorpusDelta.Env, deps: Deps<Corpus, SignedDelta>)
    requires Wired(env, deps)
    ensures RootsKept(env, deps)
  {
    forall c, d | Kept(env, c) && deps.apply(c, d).Some?
      ensures Kept(env, deps.apply(c, d).value)
    {
      WiredSound(env, c, d);
    }
  }

  /** Every corpus along a wired walk carries its own recomputed root. */
  lemma {:induction false} WalkKept(env: CorpusDelta.Env, deps: Deps<Corpus, SignedDelta>,
                                    base: Corpus, from: int, k: nat)
    requires RootsKept(env, deps) && Kept(env, base) && Folded(deps, base, from, k).Some?
    ensures Kept(env, Folded(deps, base, from, k).value)
  {
    if k > 0 {
      WalkKept(env, deps, base, from, k - 1);
      var before := Folded(deps, base, from, k - 1).value;
      assert deps.apply(before, deps.fetch(from + k - 1).delta) == Folded(deps, base, from, k);
    }
  }

  lemma {:induction false} LeastReach<C(!new), D(!new)>(deps: Deps<C, D>, base: C, target: Hash, from: int, k: nat)
    returns (j: nat)
    requires 1 <= k && Reaches(deps, base, target, from, k)
    ensures 1 <= j <= k && FirstReach(deps, base, target, from, j)
  {
    j := k;
    if i: nat :| 1 <= i < k && Reaches(deps, base, target, from, i) {
      j := LeastReach(deps, base, target, from, i);
    }
  }

  lemma ReachResolves(env: CorpusDelta.Env, deps: Deps<Corpus, SignedDelta>,
                      base: Corpus, target: Hash, from: int, k: nat, maxDeltas: nat)
    requires RootsKept(env, deps) && Kept(env, base) && k <= maxDeltas && Reaches(deps, base, target, from, k)
    ensures Resolves(deps, base, target, from, maxDeltas)
  {
    if k > 0 {
      var j := LeastReach(deps, base, target, from, k);
      WalkKept(env, deps, base, from, j);
    }
  }

  /** With the validator's own deps the independent re-merkleization never refuses: the walk resolves
      exactly when some prefix of the published, signed chain within the bound carries the target. */
  lemma WiredResolves(env: CorpusDelta.Env, deps: Deps<Corpus, SignedDelta>,
                      base: Corpus, target: Hash, from: int, maxDeltas: nat)
    requires RootsKept(env, deps) && Kept(env, base)
    ensures Resolves(deps, base, target, from, maxDeltas) <==>
            exists k: nat :: k <= maxDeltas && Reaches(deps, base, target, from, k)
  {
    if k: nat :| k <= maxDeltas && Reaches(deps, base, target, from, k) {
      ReachResolves(env, deps, base, target, from, k, maxDeltas);
    }
    if deps.computeRoot(base) == target {
      assert Reaches(deps, base, target, from, 0);
    }
  }

  lemma {:induction false} FoldedSplits<C, D>(deps: Deps<C, D>, base: C, from: int, j: nat, k: nat)
    requires Folded(deps, base, from, j).Some?
    ensures Folded(deps, base, from, j + k) == Folded(deps, Folded(deps, base, from, j).value, from + j, k)
  {
    if k > 0 {
      FoldedSplits(deps, base, from, j, k - 1);
    }
  }

  lemma LaterCorpusReached<C(!new), D(!new)>(deps: Deps<C, D>, launch: C, e: nat, t: nat)
    returns (start: C, target: Hash)
    requires e <= t && Folded(deps, launch, 1, t).Some?
    ensures Folded(deps, launch, 1, e) == Some(start)
    ensures Reaches(deps, launch, target, 1, t) && Reaches(deps, start, target, e + 1, t - e)
  {
    if Folded(deps, launch, 1, e).None? {
      FoldedStops(deps, launch, 1, e, t);
    }
    start, target := Folded(deps, launch, 1, e).value, deps.rootField(Folded(deps, launch, 1, t).value);
    FoldedSplits(deps, launch, 1, e, t - e);
  }

  /** Any retained corpus of the published chain serves as a start for any later one: if launch plus
      the first `t` deltas carries the target, the walk from the corpus at epoch `e` before it
      resolves within any bound that admits epoch `t`. */
  lemma PublishedChainResolves(env: CorpusDelta.Env, deps: Deps<Corpus, SignedDelta>,
                               launch: Corpus, e: nat, t: nat, bound: nat) returns (start: Corpus, target: Hash)
    requires RootsKept(env, deps) && Kept(env, launch) && e < t <= bound
    requires Folded(deps, launch, 1, t).Some?
    ensures Folded(deps, launch, 1, e) == Some(start)
    ensures Reaches(deps, launch, target, 1, t)
    ensures Resolves(deps, start, target, e + 1, bound - e)
  {
    start, target := LaterCorpusReached(deps, launch, e, t);
    WalkKept(env, deps, launch, 1, e);
    ReachResolves(env, deps, start, target, e + 1, t - e, bound - e);
  }

  /** Every candidate is the corpus of the published chain at its epoch. */
  ghost predicate OnPublishedChain(deps: Deps<Corpus, SignedDelta>, launch: Corpus, candidates: seq<Known<Corpus>>) {
    forall i :: 0 <= i < |candidates| ==>
      candidates[i].epoch >= 0 && Folded(deps, launch, 1, candidates[i].epoch) == Some(candidates[i].corpus)
  }

  /** The target lies after the nearest candidate within the bound: some candidate is at or below the
      bound, and all that are lie before `t`. */
  ghost predicate TargetAhead(candidates: seq<Known<Corpus>>, t: nat, bound: nat) {
    && t <= bound
    && (exists i :: 0 <= i < |candidates| && candidates[i].epoch <= bound)
    && (forall i :: 0 <= i < |candidates| && candidates[i].epoch <= bound ==> candidates[i].epoch < t)
  }

  /** Start and walk together do resolve: if the candidates are of the published, signed chain and its
      corpus after `t` deltas carries the target, with the nearest candidate before it and `t` within the
      bound, the entry's corpus is found. */
  method ResolvePublishedEntry(ghost env: CorpusDelta.Env, deps: Deps<Corpus, SignedDelta>,
                               candidates: seq<Known<Corpus>>,
                               target: Hash, bound: nat, ghost launch: Corpus, ghost t: nat)
    returns (corpus: Corpus, fetched: seq<int>)
    requires RootsKept(env, deps) && Kept(env, launch) && OnPublishedChain(deps, launch, candidates)
    requires Reaches(deps, launch, target, 1, t) && TargetAhead(candidates, t, bound)
    ensures deps.computeRoot(corpus) == target && forall e :: e in fetched ==> e <= bound
  {
    var r, epochs, at := ResolveEntry(deps, candidates, target, bound);
    ghost var start, root := PublishedChainResolves(env, deps, launch, candidates[at].epoch, t, bound);
    corpus, fetched := r.value.corpus, epochs;
  }
}
