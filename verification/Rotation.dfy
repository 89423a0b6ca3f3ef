/** How far the active window moves in an epoch, mode by mode, and over runs of epochs. */
module Rotation {
  import opened Wrappers
  import opened FamilyOrder
  import opened EpochFrontier

  // ── what is retired and what is kept ─────────────────────────────────────────

  /** The active entries that have reached the age limit. */
  ghost function TooOld(p: Params, f: Frontier, epoch: int): set<nat> {
    set i: nat | i < |f.active| && p.maxAge.Some? && epoch - f.active[i].1 >= p.maxAge.value
  }

  lemma {:induction false} BelowCount(s: set<nat>, k: nat)
    requires forall i: nat :: i in s <==> i < k
    ensures |s| == k
  {
    if k == 0 {
      assert s == {};
    } else {
      BelowCount(s - {k - 1}, k - 1);
    }
  }

  lemma RetireOldestExact(f: Frontier, n: nat, r: nat, last: int)
    requires Slides(f, r, last)
    ensures var k := if n <= |f.active| then n else |f.active|;
            RetireOldest(f, n).1 == k && RetireOldest(f, n).0.active == f.active[k..]
  {
    SortKeepsWindow(f.order, f.active, r, last);
    RetireSlides(f, if n <= |f.active| then n else |f.active|, r, last);
  }

  lemma RetireAgedExact(p: Params, f: Frontier, epoch: int, r: nat, last: int)
    requires Slides(f, r, last)
    ensures var k := |TooOld(p, f, epoch)|;
            k <= |f.active| && RetireAged(p, f, epoch).1 == k && RetireAged(p, f, epoch).0.active == f.active[k..]
  {
    var aged := TooOld(p, f, epoch);
    if p.maxAge.Some? {
      var k := AgedIsPrefix(f.active, epoch, p.maxAge.value, last);
      BelowCount(aged, k);
      RetireSlides(f, k, r, last);
    } else {
      assert aged == {};
    }
  }

  /** Entries kept keep their age; entries added are of this epoch. */
  ghost predicate Refreshed(kept: seq<(Id, int)>, now: seq<(Id, int)>, epoch: int) {
    |kept| <= |now| && now[..|kept|] == kept && forall i :: |kept| <= i < |now| ==> now[i].1 == epoch
  }

  lemma {:induction false} ActivateRefreshes(f: Frontier, n: nat, epoch: int)
    ensures Refreshed(f.active, ActivateNext(f, n, epoch).0.active, epoch)
    decreases |f.order| - f.reservePtr
  {
    if n > 0 && f.reservePtr < |f.order| {
      var id := f.order[f.reservePtr];
      var moved := f.(reservePtr := f.reservePtr + 1);
      if id in Ids(f.active) || id in f.retired {
        ActivateRefreshes(moved, n, epoch);
      } else {
        var grown := moved.(active := f.active + [(id, epoch)], cumulativeActivated := f.cumulativeActivated + 1);
        ActivateRefreshes(grown, n - 1, epoch);
        RefreshedLater(f.active, (id, epoch), ActivateNext(grown, n - 1, epoch).0.active, epoch);
      }
    }
  }

  lemma RefreshedLater(kept: seq<(Id, int)>, x: (Id, int), now: seq<(Id, int)>, epoch: int)
    requires Refreshed(kept + [x], now, epoch) && x.1 == epoch
    ensures Refreshed(kept, now, epoch)
  {
    assert now[..|kept|] == now[..|kept| + 1][..|kept|] == kept;
    assert now[|kept|] == now[..|kept| + 1][|kept|] == x;
  }

  predicate Rotating(p: Params) {
    p.mode != Off && p.mode != C0
  }

  /** How many ids leave in an epoch at a given rate: those too old, then the oldest of the rest. */
  ghost function Leaving(p: Params, f: Frontier, epoch: int, rate: nat): nat {
    var aged := |TooOld(p, f, epoch)|;
    if !Rotating(p) || aged > |f.active| then aged
    else aged + if rate <= |f.active| - aged then rate else |f.active| - aged
  }

  lemma RefillRefreshes(f: Frontier, ret: nat, epoch: int, rate: nat)
    ensures var (g, snap) := Refill(f, ret, epoch, rate);
            snap.retired == ret && Refreshed(f.active, g.active, epoch)
  {
    ActivateRefreshes(f, ret, epoch);
  }

  lemma RotateLeaves(f: Frontier, ret: nat, epoch: int, rate: nat, r: nat, last: int)
    requires Slides(f, r, last)
    ensures var (g, snap) := Rotate(f, ret, epoch, rate);
            var k := if rate <= |f.active| then rate else |f.active|;
            snap.retired == ret + k && Refreshed(f.active[k..], g.active, epoch)
  {
    RetireOldestExact(f, rate, r, last);
    var (h, k) := RetireOldest(f, rate);
    RefillRefreshes(h, ret + k, epoch, rate);
  }

  lemma RotatedAfter(f: Frontier, g: Frontier, ret: nat, epoch: int, rate: nat, r: nat, last: int)
    requires Slides(g, r, last) && ret <= |f.active| && g.active == f.active[ret..]
    ensures var (h, snap) := Rotate(g, ret, epoch, rate);
            && snap.retired == ret + (if rate <= |f.active| - ret then rate else |f.active| - ret)
            && Refreshed(f.active[snap.retired..], h.active, epoch)
  {
    RotateLeaves(g, ret, epoch, rate, r, last);
    DroppedTwice(f.active, ret, if rate <= |g.active| then rate else |g.active|);
  }

  lemma ChurnLeaves(p: Params, f: Frontier, epoch: int, ewma: Option<real>, rate: nat, r: nat, last: int)
    requires Slides(f, r, last) && last <= epoch
    ensures var (g, snap) := Churn(p, f, epoch, ewma, rate);
            && snap.retired == Leaving(p, f, epoch, rate) <= |f.active|
            && Refreshed(f.active[snap.retired..], g.active, epoch)
  {
    var left := RetireAgedSlides(p, f, epoch, r, last);
    RetireAgedExact(p, f, epoch, r, last);
    var (g, ret) := RetireAged(p, f, epoch);
    if Rotating(p) {
      RotatedAfter(f, g.(ewmaAccepts := ewma), ret, epoch, rate, left, last);
    } else {
      RefillRefreshes(g, ret, epoch, 0);
    }
  }

  lemma DroppedTwice(active: seq<(Id, int)>, a: nat, b: nat)
    requires a + b <= |active|
    ensures active[a..][b..] == active[a + b..]
  {
  }

  // ── what the snapshot says ───────────────────────────────────────────────────

  /** The snapshot of a window: its ids are the three parts of the order, its counters the two pointers. */
  ghost predicate Pictures(snap: Snapshot, g: Frontier, left: nat) {
    && left <= g.reservePtr <= |g.order|
    && snap.retiredIds == (set x | x in g.order[..left])
    && snap.activeIds == (set x | x in g.order[left..g.reservePtr])
    && snap.reserveIds == (set x | x in g.order[g.reservePtr..])
    && snap.activeCount == g.reservePtr - left && snap.reserveRemaining == |g.order| - g.reservePtr
    && snap.cumulativeRetired == left && snap.cumulativeActivated == g.reservePtr
  }

  lemma SnapPictures(g: Frontier, epoch: int, activated: nat, retired: nat, rate: nat, left: nat)
    requires Slides(g, left, epoch)
    ensures Pictures(Snap(g, epoch, activated, retired, rate), g, left)
  {
    ActiveIds(g.order, g.active, left);
    var tail := g.order[g.reservePtr..];
    forall x
      ensures x in Reserve(g) <==> x in tail
    {
      if x in Reserve(g) {
        var i :| g.reservePtr <= i < |g.order| && g.order[i] == x;
        assert tail[i - g.reservePtr] == x;
      }
    }
  }

  lemma StepPictures(p: Params, f: Frontier, epoch: int, prev: Option<real>, quality: Option<nat>, left: nat)
    requires Slides(StepEpoch(p, f, epoch, prev, quality).0, left, epoch)
    ensures var (g, snap) := StepEpoch(p, f, epoch, prev, quality);
            Pictures(snap, g, left) && snap.epochId == epoch && g.injectedSinceLastStep == 0
  {
    var (g, snap) := StepEpoch(p, f, epoch, prev, quality);
    SnapPictures(g, epoch, snap.activated, snap.retired, snap.churnRate, left);
  }

  /** One epoch of an initialised frontier: exactly the ids that are too old leave, and in a rotating mode
      as many of the oldest others as the rate says; as many enter as the reserve has. Kept ids keep their
      age, and the snapshot pictures the new window. */
  lemma StepRotates(p: Params, f: Frontier, epoch: int, prev: Option<real>, quality: Option<nat>, r: nat, last: int)
    requires Slides(f, r, last) && last <= epoch && f.initialized
    ensures var (g, snap) := StepEpoch(p, f, epoch, prev, quality);
            && snap.retired == Leaving(p, f, epoch, snap.churnRate) <= |f.active|
            && Slides(g, r + snap.retired, epoch) && Pictures(snap, g, r + snap.retired)
            && snap.activated == Min(snap.retired, |f.order| - f.reservePtr)
            && g.reservePtr == f.reservePtr + snap.activated && g.order == f.order
            && Refreshed(f.active[snap.retired..], g.active, epoch)
            && snap.epochId == epoch && g.injectedSinceLastStep == 0 && g.initialized
  {
    var left := StepSlides(p, f, epoch, prev, quality, r, last);
    var ewma, rate := Ewma(p, f.ewmaAccepts, prev), RateOf(p, f, prev, quality);
    ChurnLeaves(p, f, epoch, ewma, rate, r, last);
    ChurnShowsRate(p, f, epoch, ewma, rate);
    StepPictures(p, f, epoch, prev, quality, left);
  }

  lemma ChurnShowsRate(p: Params, f: Frontier, epoch: int, ewma: Option<real>, rate: nat)
    ensures Churn(p, f, epoch, ewma, rate).1.churnRate == if Rotating(p) then rate else 0
  {
  }

  // ── the rate, mode by mode ───────────────────────────────────────────────────

  /** The rate is what the mode wants, cut to the root-delta limit and to the reserve. */
  predicate Cut(rate: int, wanted: int, p: Params, reserve: int) {
    && rate <= wanted && rate <= p.maxRootDeltaPerEpoch && rate <= reserve
    && (rate == wanted || rate == p.maxRootDeltaPerEpoch || rate == reserve)
  }

  /** `w` is `x` moved into the churn bounds; an upper bound below the lower one wins. */
  predicate Within(w: int, x: int, p: Params) {
    && w <= p.maxChurn && (w < p.maxChurn ==> w >= x && w >= p.minChurn)
    && (w == x || w == p.minChurn || w == p.maxChurn)
    && (w == p.maxChurn ==> x >= p.maxChurn || p.minChurn >= p.maxChurn)
  }

  /** The fewest units whose expected yield covers the deficit. */
  predicate Fewest(n: int, deficit: real, yieldPerUnit: real) {
    n >= 0 && n as real * yieldPerUnit >= deficit && (n > 0 ==> (n - 1) as real * yieldPerUnit < deficit)
  }

  lemma CeilIsFewest(deficit: real, yieldPerUnit: real)
    requires deficit >= 0.0 && yieldPerUnit > 0.0
    ensures Fewest(Ceil(deficit / yieldPerUnit), deficit, yieldPerUnit)
  {
    var q := deficit / yieldPerUnit;
    QuotientTimes(deficit, yieldPerUnit, q);
    RoundedUp(Ceil(q), q, deficit, yieldPerUnit);
  }

  lemma RoundedUp(n: int, q: real, d: real, y: real)
    requires n as real >= q > (n - 1) as real && q * y == d && q >= 0.0 && y > 0.0
    ensures Fewest(n, d, y)
  {
    Scaled(n as real, q, y);
    Scaled(q, (n - 1) as real, y);
  }

  lemma QuotientTimes(d: real, y: real, q: real)
    requires d >= 0.0 && y > 0.0 && q == d / y
    ensures q * y == d && q >= 0.0
  {
  }

  lemma Scaled(a: real, b: real, y: real)
    requires y > 0.0
    ensures a >= b ==> a * y >= b * y
    ensures a > b ==> a * y > b * y
  {
  }

  /** The smoothed accepts after an epoch: moved toward the new count by alpha of the distance. */
  ghost predicate Smoothed(p: Params, was: Option<real>, prev: Option<real>, now: Option<real>) {
    if prev.None? then now == was
    else if was.None? then now == prev
    else now.Some? && now.value - was.value == p.ewmaAlpha * (prev.value - was.value)
  }

  lemma EwmaSmooths(p: Params, was: Option<real>, prev: Option<real>)
    ensures Smoothed(p, was, prev, Ewma(p, was, prev))
  {
  }

  lemma {:induction false} ActivateKeepsEwma(f: Frontier, n: nat, epoch: int)
    ensures ActivateNext(f, n, epoch).0.ewmaAccepts == f.ewmaAccepts
    decreases |f.order| - f.reservePtr
  {
    if n > 0 && f.reservePtr < |f.order| {
      var id := f.order[f.reservePtr];
      var moved := f.(reservePtr := f.reservePtr + 1);
      if id in Ids(f.active) || id in f.retired {
        ActivateKeepsEwma(moved, n, epoch);
      } else {
        ActivateKeepsEwma(moved.(active := f.active + [(id, epoch)], cumulativeActivated := f.cumulativeActivated + 1),
                          n - 1, epoch);
      }
    }
  }

  lemma RotateKeepsEwma(f: Frontier, ret: nat, epoch: int, rate: nat)
    ensures Rotate(f, ret, epoch, rate).0.ewmaAccepts == f.ewmaAccepts
  {
    var (h, k) := RetireOldest(f, rate);
    ActivateKeepsEwma(h, ret + k, epoch);
  }

  lemma StepSmooths(p: Params, f: Frontier, epoch: int, prev: Option<real>, quality: Option<nat>)
    requires f.initialized
    ensures var now := StepEpoch(p, f, epoch, prev, quality).0.ewmaAccepts;
            if Rotating(p) then Smoothed(p, f.ewmaAccepts, prev, now) && now == Ewma(p, f.ewmaAccepts, prev)
            else now == f.ewmaAccepts
  {
    var ewma, rate := Ewma(p, f.ewmaAccepts, prev), RateOf(p, f, prev, quality);
    EwmaSmooths(p, f.ewmaAccepts, prev);
    var (g, ret) := RetireAged(p, f, epoch);
    if Rotating(p) {
      RotateKeepsEwma(g.(ewmaAccepts := ewma), ret, epoch, rate);
    } else {
      ActivateKeepsEwma(g, ret, epoch);
    }
  }

  /** What C3 wants before newly injected ids are counted: nothing without quality attempts or with high
      headroom, enough units to cover the deficit with low headroom, the minimum in between. */
  ghost predicate HeadroomWants(p: Params, recent: real, quality: Option<nat>, w: int) {
    if quality == Some(0) then w == 0
    else if recent <= p.headroomLowWatermark then
      exists n :: Within(w, n, p)
        && Fewest(n, MaxR(0.0, p.targetAccepts - recent), MaxR(0.000001, p.expectedYieldPerUnit))
    else if recent >= p.headroomHighWatermark then w == 0
    else w == p.minChurn
  }

  /** Injected ids raise it to their number, within the churn bounds. */
  ghost predicate C3Wants(p: Params, injected: nat, recent: real, quality: Option<nat>, w: int) {
    exists base, bump :: HeadroomWants(p, recent, quality, base) && Within(bump, injected, p)
      && w == if injected > 0 && bump > base then bump else base
  }

  ghost predicate Wants(p: Params, injected: nat, recent: real, prev: Option<real>, quality: Option<nat>, w: int) {
    match p.mode
    case Off => w == 0
    case C0 => w == 0
    case C1 => w == p.churnRate
    case C2 =>
      if prev.Some? && prev.value < p.lowAdvancesThreshold
      then w == (if p.lowAdvancesBumpRate.Some? then p.lowAdvancesBumpRate.value else 2 * p.churnRate)
      else w == p.churnRate
    case C3 => C3Wants(p, injected, recent, quality, w)
    case C4 => w == p.minChurn
  }

  lemma ClampWithin(p: Params, x: int)
    ensures Within(Min(p.maxChurn, Max(p.minChurn, x)), x, p)
  {
  }

  lemma RateIsWanted(p: Params, injected: nat, reserve: nat, ewma: Option<real>, prev: Option<real>,
                     quality: Option<nat>) returns (wanted: int)
    requires Rotating(p)
    ensures Cut(Rate(p, injected, reserve, ewma, prev, quality), wanted, p, reserve)
    ensures Wants(p, injected, if ewma.Some? then ewma.value else p.targetAccepts, prev, quality, wanted)
  {
    var base := BaseRate(p, injected, ewma, prev, quality);
    wanted := base;
    if p.mode == C3 {
      var recent := if ewma.Some? then ewma.value else p.targetAccepts;
      var bump := Min(p.maxChurn, Max(p.minChurn, injected));
      wanted := if injected > 0 then Max(base, bump) else base;
      ClampWithin(p, injected);
      var still := if quality == Some(0) then 0 else base;
      HeadroomBase(p, injected, ewma, prev, quality, still);
      assert wanted == if injected > 0 && bump > still then bump else still;
      assert C3Wants(p, injected, recent, quality, wanted);
    }
  }

  lemma HeadroomBase(p: Params, injected: nat, ewma: Option<real>, prev: Option<real>, quality: Option<nat>, w: int)
    requires p.mode == C3
    requires w == if quality == Some(0) then 0 else BaseRate(p, injected, ewma, prev, quality)
    ensures HeadroomWants(p, if ewma.Some? then ewma.value else p.targetAccepts, quality, w)
  {
    var recent := if ewma.Some? then ewma.value else p.targetAccepts;
    if quality != Some(0) && recent <= p.headroomLowWatermark {
      var deficit, yieldPerUnit := MaxR(0.0, p.targetAccepts - recent), MaxR(0.000001, p.expectedYieldPerUnit);
      var n := Ceil(deficit / yieldPerUnit);
      CeilIsFewest(deficit, yieldPerUnit);
      ClampWithin(p, n);
      assert Within(w, n, p) && Fewest(n, deficit, yieldPerUnit);
    }
  }

  /** The rate of a step is what its mode wants, cut to the root-delta limit and to the reserve: C1 a fixed
      number, C2 a bumped one exactly after an epoch of few accepts, C3 by headroom with the smoothed
      accepts and by injected ids, C4 the minimum; off and C0 never rotate. */
  lemma RateByMode(p: Params, f: Frontier, epoch: int, prev: Option<real>, quality: Option<nat>, r: nat, last: int)
    returns (wanted: int)
    requires Slides(f, r, last) && last <= epoch && f.initialized
    ensures var (g, snap) := StepEpoch(p, f, epoch, prev, quality);
            var recent := if g.ewmaAccepts.Some? then g.ewmaAccepts.value else p.targetAccepts;
            && Wants(p, f.injectedSinceLastStep, recent, prev, quality, wanted)
            && Cut(snap.churnRate, wanted, p, |f.order| - f.reservePtr)
            && (if Rotating(p) then Smoothed(p, f.ewmaAccepts, prev, g.ewmaAccepts)
                else g.ewmaAccepts == f.ewmaAccepts)
  {
    StepSmooths(p, f, epoch, prev, quality);
    var ewma := Ewma(p, f.ewmaAccepts, prev);
    ChurnShowsRate(p, f, epoch, ewma, RateOf(p, f, prev, quality));
    if Rotating(p) {
      wanted := RateIsWanted(p, f.injectedSinceLastStep, |f.order| - f.reservePtr, ewma, prev, quality);
    } else {
      wanted := 0;
    }
  }

  // ── injected ids ─────────────────────────────────────────────────────────────

  lemma ActiveInOrder(f: Frontier, r: nat, last: int, x: Id)
    requires Slides(f, r, last) && (x in Ids(f.active) || x in f.retired)
    ensures x in f.order
  {
    if x in Ids(f.active) {
      var i :| 0 <= i < |f.active| && Ids(f.active)[i] == x;
      assert f.order[r + i] == x;
    } else {
      assert x in f.order[..r];
    }
  }

  /** Injecting puts exactly the ids that the order does not hold yet, each once, right behind the reserve
      pointer, counts them for the next rate, and changes nothing else. */
  lemma InjectsTheNew(p: Params, f: Frontier, newIds: seq<Id>, familyOf: Id -> Family, r: nat, last: int)
    returns (segment: seq<Id>)
    requires Slides(f, r, last) && NoDuplicates(newIds)
    ensures var (g, n) := AddReserveIds(p, f, newIds, familyOf);
            && g.order == f.order[..f.reservePtr] + segment + f.order[f.reservePtr..] && n == |segment|
            && g == f.(order := g.order, injectedSinceLastStep := f.injectedSinceLastStep + n)
    ensures NoDuplicates(segment) && forall x :: x in segment <==> x in newIds && x !in f.order
  {
    var unseen := Unseen(f, newIds);
    segment := Interleaved(p.seeding, familyOf, unseen);
    UnseenNoDuplicates(f, newIds);
    InterleavedDistinct(p, unseen, familyOf);
    forall x
      ensures x in unseen <==> x in newIds && x !in f.order
    {
      if x in Ids(f.active) || x in f.retired {
        ActiveInOrder(f, r, last, x);
      }
    }
    if unseen == [] {
      assert |segment| == 0;
      assert f.order[..f.reservePtr] + [] + f.order[f.reservePtr..] == f.order;
    }
  }

  // ── runs of epochs ───────────────────────────────────────────────────────────

  ghost predicate OnlySteps(cs: seq<Command>) {
    forall i :: 0 <= i < |cs| ==> cs[i].Step?
  }

  function Least(a: int, b: int, c: int): int {
    if a <= b && a <= c then a else if b <= c then b else c
  }

  lemma C1Amount(p: Params, rate: nat, active: nat, room: nat) returns (k: nat)
    requires Cut(rate, p.churnRate, p, room)
    ensures k == if rate <= active then rate else active
    ensures var c := Least(p.churnRate, p.maxRootDeltaPerEpoch, active); k == if c <= room then c else room
  {
    k := if rate <= active then rate else active;
  }

  lemma C1Rate(p: Params, f: Frontier, epoch: int, prev: Option<real>, quality: Option<nat>, r: nat, last: int)
    requires Slides(f, r, last) && f.initialized && p.mode == C1 && last <= epoch
    ensures Cut(StepEpoch(p, f, epoch, prev, quality).1.churnRate, p.churnRate, p, |f.order| - f.reservePtr)
  {
    var wanted := RateByMode(p, f, epoch, prev, quality, r, last);
  }

  lemma C1Retires(p: Params, f: Frontier, epoch: int, prev: Option<real>, quality: Option<nat>, r: nat, last: int)
    requires Slides(f, r, last) && f.initialized && p.mode == C1 && p.maxAge.None? && last <= epoch
    ensures var c, room := Least(p.churnRate, p.maxRootDeltaPerEpoch, |f.active|), |f.order| - f.reservePtr;
            StepEpoch(p, f, epoch, prev, quality).1.retired == if c <= room then c else room
  {
    var rate := StepEpoch(p, f, epoch, prev, quality).1.churnRate;
    C1Rate(p, f, epoch, prev, quality, r, last);
    StepRotates(p, f, epoch, prev, quality, r, last);
    NoneTooOld(p, f, epoch);
    var k := C1Amount(p, rate, |f.active|, |f.order| - f.reservePtr);
  }

  lemma C1Step(p: Params, f: Frontier, epoch: int, prev: Option<real>, quality: Option<nat>, r: nat, last: int)
    returns (k: nat)
    requires Slides(f, r, last) && f.initialized && p.mode == C1 && p.maxAge.None? && last <= epoch
    ensures var c, room := Least(p.churnRate, p.maxRootDeltaPerEpoch, |f.active|), |f.order| - f.reservePtr;
            k == if c <= room then c else room
    ensures var g := StepEpoch(p, f, epoch, prev, quality).0;
            && Slides(g, r + k, epoch) && g.initialized && g.order == f.order
            && g.reservePtr == f.reservePtr + k && |g.active| == |f.active|
  {
    C1Retires(p, f, epoch, prev, quality, r, last);
    var left := StepSlides(p, f, epoch, prev, quality, r, last);
    k := StepEpoch(p, f, epoch, prev, quality).1.retired;
  }

  lemma NoneTooOld(p: Params, f: Frontier, epoch: int)
    requires p.maxAge.None?
    ensures |TooOld(p, f, epoch)| == 0
  {
    assert TooOld(p, f, epoch) == {};
  }

  lemma RunOfStep(p: Params, f: Frontier, cs: seq<Command>)
    requires cs != [] && cs[0].Step?
    ensures Run(p, f, cs).0 == Run(p, StepEpoch(p, f, cs[0].epoch, cs[0].prev, cs[0].quality).0, cs[1..]).0
  {
  }

  lemma MoreSteps(n: nat, c: nat, room: nat)
    requires n > 0
    ensures var k := if c <= room then c else room;
            k + (if (n - 1) * c <= room - k then (n - 1) * c else room - k) == if n * c <= room then n * c else room
  {
    assert n * c == (n - 1) * c + c;
    assert (n - 1) * c >= 0;
  }

  /** In mode C1 without an age limit, after n epochs exactly n times the rate has gone through the window,
      or the whole reserve if that is less: the rate being the configured one, cut to the root-delta limit
      and to the window. */
  lemma {:induction false} C1RunRotates(p: Params, f: Frontier, cs: seq<Command>, r: nat, last: int) returns (k: nat)
    requires Slides(f, r, last) && f.initialized && p.mode == C1 && p.maxAge.None?
    requires OnlySteps(cs) && Orderly(cs, last)
    ensures var c, room := Least(p.churnRate, p.maxRootDeltaPerEpoch, |f.active|), |f.order| - f.reservePtr;
            k == if |cs| * c <= room then |cs| * c else room
    ensures var g := Run(p, f, cs).0;
            g.cumulativeRetired == r + k && g.reservePtr == f.reservePtr + k && g.order == f.order
    decreases |cs|
  {
    if cs == [] {
      k := 0;
    } else {
      var c, room := Least(p.churnRate, p.maxRootDeltaPerEpoch, |f.active|), |f.order| - f.reservePtr;
      var first := C1Step(p, f, cs[0].epoch, cs[0].prev, cs[0].quality, r, last);
      var g := StepEpoch(p, f, cs[0].epoch, cs[0].prev, cs[0].quality).0;
      var more := C1RunRotates(p, g, cs[1..], r + first, cs[0].epoch);
      RunOfStep(p, f, cs);
      MoreSteps(|cs|, c, room);
      k := first + more;
    }
  }
}
