/** The rotating active frontier: an active set kept as an insertion-ordered map, retired by sorting
    on (activation epoch, order index) and refilled from a precommitted reserve order. */
module EpochFrontier {
  import opened Wrappers
  import opened FamilyOrder

  datatype Mode = Off | C0 | C1 | C2 | C3 | C4

  datatype Params = Params(
    mode: Mode, activeWindow: Option<nat>, maxAge: Option<nat>,  // None: no age limit
    churnRate: nat, lowAdvancesThreshold: real, lowAdvancesBumpRate: Option<nat>,
    minChurn: nat, maxChurn: nat, targetAccepts: real,
    headroomLowWatermark: real, headroomHighWatermark: real,
    ewmaAlpha: real, expectedYieldPerUnit: real, maxRootDeltaPerEpoch: nat, seeding: Seeding)

  /** The closure variables. `active` is a JavaScript Map: entries in insertion order. */
  datatype Frontier = Frontier(
    order: seq<Id>, window: nat, reservePtr: nat,
    active: seq<(Id, int)>, retired: set<Id>,
    cumulativeActivated: nat, cumulativeRetired: nat,
    initialized: bool, injectedSinceLastStep: nat, ewmaAccepts: Option<real>)

  /** Roots are hashes of id sets; the sets stand for them. */
  datatype Snapshot = Snapshot(
    epochId: int, activeCount: nat, activated: nat, retired: nat, churnRate: nat, reserveRemaining: int,
    cumulativeActivated: nat, cumulativeRetired: nat,
    activeIds: set<Id>, reserveIds: set<Id>, retiredIds: set<Id>)

  function Min(a: int, b: int): int { if a <= b then a else b }
  function Max(a: int, b: int): int { if a >= b then a else b }
  function MaxR(a: real, b: real): real { if a >= b then a else b }

  function Ids(entries: seq<(Id, int)>): (r: seq<Id>)
    ensures |r| == |entries|
  {
    seq(|entries|, i requires 0 <= i < |entries| => entries[i].0)
  }

  // ── activation and retirement ────────────────────────────────────────────────

  /** Drains the reserve until `n` ids were activated; ids already active or retired are passed over. */
  function ActivateNext(f: Frontier, n: nat, epoch: int): (r: (Frontier, nat))
    decreases |f.order| - f.reservePtr
  {
    if n == 0 || f.reservePtr >= |f.order| then (f, 0)
    else
      var id := f.order[f.reservePtr];
      var moved := f.(reservePtr := f.reservePtr + 1);
      if id in Ids(f.active) || id in f.retired then ActivateNext(moved, n, epoch)
      else
        var (g, a) := ActivateNext(moved.(active := f.active + [(id, epoch)],
                                          cumulativeActivated := f.cumulativeActivated + 1), n - 1, epoch);
        (g, a + 1)
  }

  function IndexOf(order: seq<Id>, id: Id): (i: nat)
    ensures i <= |order|
    ensures i < |order| ==> order[i] == id
    ensures id !in order[..i]
  {
    if order == [] || order[0] == id then 0
    else
      var i := IndexOf(order[1..], id);
      assert order[..i + 1] == [order[0]] + order[1..][..i];
      i + 1
  }

  /** retireOldest's comparator: activation epoch, then order index. */
  predicate Older(order: seq<Id>, x: (Id, int), y: (Id, int)) {
    x.1 < y.1 || (x.1 == y.1 && IndexOf(order, x.0) < IndexOf(order, y.0))
  }

  function InsertByAge(order: seq<Id>, x: (Id, int), sorted: seq<(Id, int)>): seq<(Id, int)> {
    if sorted == [] || !Older(order, sorted[0], x) then [x] + sorted
    else [sorted[0]] + InsertByAge(order, x, sorted[1..])
  }

  function SortByAge(order: seq<Id>, entries: seq<(Id, int)>): seq<(Id, int)> {
    if entries == [] then []
    else InsertByAge(order, entries[0], SortByAge(order, entries[1..]))
  }

  function Without(entries: seq<(Id, int)>, id: Id): seq<(Id, int)> {
    if entries == [] then []
    else if entries[0].0 == id then Without(entries[1..], id)
    else [entries[0]] + Without(entries[1..], id)
  }

  function WithoutAll(entries: seq<(Id, int)>, ids: seq<Id>): seq<(Id, int)>
    decreases |ids|
  {
    if ids == [] then entries else WithoutAll(Without(entries, ids[0]), ids[1..])
  }

  function Retire(f: Frontier, ids: seq<Id>): Frontier {
    f.(active := WithoutAll(f.active, ids), retired := f.retired + (set x | x in ids),
       cumulativeRetired := f.cumulativeRetired + |ids|)
  }

  function RetireOldest(f: Frontier, n: nat): (Frontier, nat) {
    var sorted := SortByAge(f.order, f.active);
    var k := Min(n, |sorted|);
    (Retire(f, Ids(sorted[..k])), k)
  }

  function Aged(active: seq<(Id, int)>, epoch: int, maxAge: nat): seq<Id> {
    if active == [] then []
    else (if epoch - active[0].1 >= maxAge then [active[0].0] else []) + Aged(active[1..], epoch, maxAge)
  }

  // ── churn rate ───────────────────────────────────────────────────────────────

  function Ewma(p: Params, ewma: Option<real>, prev: Option<real>): Option<real> {
    if prev.None? then ewma
    else if ewma.None? then prev
    else Some(p.ewmaAlpha * prev.value + (1.0 - p.ewmaAlpha) * ewma.value)
  }

  function Ceil(x: real): int { if x.Floor as real == x then x.Floor else x.Floor + 1 }

  function BaseRate(p: Params, injected: nat, ewma: Option<real>, prev: Option<real>, quality: Option<nat>): nat {
    if p.mode == C1 then p.churnRate
    else if p.mode == C2 then
      if prev.Some? && prev.value < p.lowAdvancesThreshold
      then if p.lowAdvancesBumpRate.Some? then p.lowAdvancesBumpRate.value else p.churnRate * 2
      else p.churnRate
    else if p.mode == C4 then p.minChurn
    else if p.mode == C3 && quality == Some(0) then
      if injected > 0 then Min(p.maxChurn, Max(p.minChurn, injected)) else 0
    else
      var recent := if ewma.Some? then ewma.value else p.targetAccepts;
      if recent <= p.headroomLowWatermark then
        var wanted := Ceil(MaxR(0.0, p.targetAccepts - recent) / MaxR(0.000001, p.expectedYieldPerUnit));
        Min(p.maxChurn, Max(p.minChurn, wanted))
      else if recent >= p.headroomHighWatermark then 0
      else p.minChurn
  }

  function Rate(p: Params, injected: nat, reserve: int, ewma: Option<real>, prev: Option<real>,
                quality: Option<nat>): (rate: nat)
    ensures rate <= p.maxRootDeltaPerEpoch && rate <= Max(0, reserve)
  {
    var base := BaseRate(p, injected, ewma, prev, quality);
    var bumped :=
      if p.mode == C3 && injected > 0 then Max(base, Min(p.maxChurn, Max(p.minChurn, injected))) else base;
    Min(Min(bumped, p.maxRootDeltaPerEpoch), Max(0, reserve))
  }

  function RateOf(p: Params, f: Frontier, prev: Option<real>, quality: Option<nat>): nat {
    Rate(p, f.injectedSinceLastStep, |f.order| - f.reservePtr, Ewma(p, f.ewmaAccepts, prev), prev, quality)
  }

  // ── stepEpoch and addReserveIds ──────────────────────────────────────────────

  function Reserve(f: Frontier): set<Id> {
    set i | f.reservePtr <= i < |f.order| :: f.order[i]
  }

  function Snap(f: Frontier, epoch: int, activated: nat, retired: nat, rate: nat): Snapshot {
    Snapshot(epoch, |f.active|, activated, retired, rate, |f.order| - f.reservePtr,
             f.cumulativeActivated, f.cumulativeRetired,
             (set x | x in Ids(f.active)),
             Reserve(f),
             f.retired)
  }

  function RetireAged(p: Params, f: Frontier, epoch: int): (Frontier, nat) {
    if p.maxAge.None? then (f, 0)
    else
      var aged := Aged(f.active, epoch, p.maxAge.value);
      (Retire(f, aged), |aged|)
  }

  function First(f: Frontier, epoch: int): (Frontier, Snapshot) {
    var (g, a) := ActivateNext(f.(initialized := true), f.window, epoch);
    var done := g.(injectedSinceLastStep := 0);
    (done, Snap(done, epoch, a, 0, 0))
  }

  function Refill(f: Frontier, ret: nat, epoch: int, rate: nat): (Frontier, Snapshot) {
    var (g, a) := ActivateNext(f, ret, epoch);
    var done := g.(injectedSinceLastStep := 0);
    (done, Snap(done, epoch, a, ret, rate))
  }

  function Rotate(g: Frontier, ret: nat, epoch: int, rate: nat): (Frontier, Snapshot) {
    var (h, more) := RetireOldest(g, rate);
    Refill(h, ret + more, epoch, rate)
  }

  /** An initialised epoch at a given churn rate. */
  function Churn(p: Params, f: Frontier, epoch: int, ewma: Option<real>, rate: nat): (Frontier, Snapshot) {
    var (g, ret) := RetireAged(p, f, epoch);
    if p.mode == Off || p.mode == C0 then Refill(g, ret, epoch, 0)
    else Rotate(g.(ewmaAccepts := ewma), ret, epoch, rate)
  }

  /** The rate is read after the aged ids are retired, which changes nothing it depends on. */
  function StepEpoch(p: Params, f: Frontier, epoch: int, prev: Option<real>, quality: Option<nat>)
    : (Frontier, Snapshot)
  {
    if !f.initialized then First(f, epoch)
    else Churn(p, f, epoch, Ewma(p, f.ewmaAccepts, prev), RateOf(p, f, prev, quality))
  }

  function Unseen(f: Frontier, newIds: seq<Id>): (r: seq<Id>)
    ensures forall x :: x in r <==> x in newIds && x !in Ids(f.active) && x !in f.retired && x !in f.order
  {
    if newIds == [] then []
    else
      var rest := Unseen(f, newIds[1..]);
      var x := newIds[0];
      if x in Ids(f.active) || x in f.retired || x in f.order then rest else [x] + rest
  }

  /** New ids are interleaved by family and spliced in behind the reserve pointer. */
  function AddReserveIds(p: Params, f: Frontier, newIds: seq<Id>, familyOf: Id -> Family): (Frontier, nat)
    requires f.reservePtr <= |f.order|
  {
    var unseen := Unseen(f, newIds);
    if unseen == [] then (f, 0)
    else
      (f.(order := f.order[..f.reservePtr] + Interleaved(p.seeding, familyOf, unseen) + f.order[f.reservePtr..],
          injectedSinceLastStep := f.injectedSinceLastStep + |unseen|), |unseen|)
  }

  function WindowSize(p: Params, order: seq<Id>): nat {
    if p.activeWindow.Some? then Min(p.activeWindow.value, |order|) else |order|
  }

  function Make(p: Params, ids: seq<Id>, familyOf: Id -> Family): Frontier {
    var order := Interleaved(p.seeding, familyOf, ids);
    Frontier(order, WindowSize(p, order), 0, [], {}, 0, 0, false, 0, None)
  }

  // ── the two-pointer window ───────────────────────────────────────────────────

  ghost predicate NoDuplicates(s: seq<Id>) {
    forall i, j :: 0 <= i < j < |s| ==> s[i] != s[j]
  }

  ghost predicate Aging(active: seq<(Id, int)>, last: int) {
    (forall i, j :: 0 <= i < j < |active| ==> active[i].1 <= active[j].1) &&
    (forall i :: 0 <= i < |active| ==> active[i].1 <= last)
  }

  predicate SameOrder(f: Frontier, g: Frontier) {
    g.order == f.order && g.window == f.window && g.initialized == f.initialized
  }

  ghost predicate RetiredPrefix(order: seq<Id>, retired: set<Id>, r: nat) {
    r <= |order| && retired == set x | x in order[..r]
  }

  ghost predicate ActiveRun(order: seq<Id>, active: seq<(Id, int)>, r: nat) {
    r + |active| <= |order| && forall i :: 0 <= i < |active| ==> active[i].0 == order[r + i]
  }

  /** The map, set and sort of the source are two pointers into `order`: everything before `r` is
      retired, everything from `r` to `reservePtr` is active, in that order. */
  ghost predicate Slides(f: Frontier, r: nat, last: int) {
    && NoDuplicates(f.order) && RetiredPrefix(f.order, f.retired, r)
    && ActiveRun(f.order, f.active, r) && f.reservePtr == r + |f.active|
    && Aging(f.active, last)
    && f.cumulativeActivated == f.reservePtr && f.cumulativeRetired == r
  }

  lemma NextIsFresh(f: Frontier, r: nat, last: int)
    requires Slides(f, r, last) && f.reservePtr < |f.order|
    ensures f.order[f.reservePtr] !in Ids(f.active) && f.order[f.reservePtr] !in f.retired
  {
    var id := f.order[f.reservePtr];
    forall i | 0 <= i < |f.active|
      ensures Ids(f.active)[i] != id
    {
      assert f.active[i].0 == f.order[r + i];
    }
  }

  lemma {:induction false} ActivateSlides(f: Frontier, n: nat, epoch: int, r: nat, last: int)
    requires Slides(f, r, last) && last <= epoch
    ensures var (g, a) := ActivateNext(f, n, epoch);
            && a == Min(n, |f.order| - f.reservePtr) && g.reservePtr == f.reservePtr + a
            && g == f.(reservePtr := g.reservePtr, active := g.active, cumulativeActivated := g.cumulativeActivated)
            && Slides(g, r, epoch)
    decreases n
  {
    if n > 0 && f.reservePtr < |f.order| {
      NextIsFresh(f, r, last);
      var id := f.order[f.reservePtr];
      var moved := f.(reservePtr := f.reservePtr + 1, active := f.active + [(id, epoch)],
                      cumulativeActivated := f.cumulativeActivated + 1);
      assert Slides(moved, r, epoch);
      ActivateSlides(moved, n - 1, epoch, r, epoch);
    }
  }

  lemma WithoutFirst(active: seq<(Id, int)>)
    requires active != [] && forall i :: 0 < i < |active| ==> active[i].0 != active[0].0
    ensures Without(active, active[0].0) == active[1..]
  {
    WithoutAbsent(active[1..], active[0].0);
  }

  lemma {:induction false} WithoutAbsent(active: seq<(Id, int)>, id: Id)
    requires forall i :: 0 <= i < |active| ==> active[i].0 != id
    ensures Without(active, id) == active
  {
    if active != [] {
      WithoutAbsent(active[1..], id);
    }
  }

  lemma {:induction false} DropPrefix(active: seq<(Id, int)>, k: nat)
    requires k <= |active| && forall i, j :: 0 <= i < j < |active| ==> active[i].0 != active[j].0
    ensures WithoutAll(active, Ids(active[..k])) == active[k..]
    decreases k
  {
    if k > 0 {
      WithoutFirst(active);
      assert Ids(active[..k])[1..] == Ids(active[1..][..k - 1]);
      DropPrefix(active[1..], k - 1);
    }
  }

  lemma RetiredGrows(order: seq<Id>, active: seq<(Id, int)>, retired: set<Id>, k: nat, r: nat)
    requires RetiredPrefix(order, retired, r) && ActiveRun(order, active, r) && k <= |active|
    ensures RetiredPrefix(order, retired + (set x | x in Ids(active[..k])), r + k)
  {
    assert Ids(active[..k]) == order[r..r + k];
    assert order[..r + k] == order[..r] + order[r..r + k];
  }

  /** Retiring the first k active entries moves the left pointer by k. */
  lemma RetireSlides(f: Frontier, k: nat, r: nat, last: int)
    requires Slides(f, r, last) && k <= |f.active|
    ensures var g := Retire(f, Ids(f.active[..k]));
            Slides(g, r + k, last) && g.active == f.active[k..]
  {
    DropPrefix(f.active, k);
    RetiredGrows(f.order, f.active, f.retired, k, r);
  }

  lemma IndexOfAt(order: seq<Id>, i: nat)
    requires NoDuplicates(order) && i < |order|
    ensures IndexOf(order, order[i]) == i
  {
    assert order[..IndexOf(order, order[i])] <= order;
  }

  /** Entries already in age order are left alone by the sort. */
  lemma {:induction false} SortKeepsWindow(order: seq<Id>, active: seq<(Id, int)>, r: nat, last: int)
    requires NoDuplicates(order) && r + |active| <= |order| && Aging(active, last)
    requires forall i :: 0 <= i < |active| ==> active[i].0 == order[r + i]
    ensures SortByAge(order, active) == active
    decreases |active|
  {
    if |active| > 0 {
      SortKeepsWindow(order, active[1..], r + 1, last);
      if |active| > 1 {
        IndexOfAt(order, r);
        IndexOfAt(order, r + 1);
      }
    }
  }

  lemma RetireOldestSlides(f: Frontier, n: nat, r: nat, last: int) returns (left: nat)
    requires Slides(f, r, last)
    ensures Slides(RetireOldest(f, n).0, left, last)
    ensures left == r + RetireOldest(f, n).1 && RetireOldest(f, n).1 <= n
    ensures SameOrder(f, RetireOldest(f, n).0) && RetireOldest(f, n).0.reservePtr == f.reservePtr
  {
    SortKeepsWindow(f.order, f.active, r, last);
    left := r + Min(n, |f.active|);
    RetireSlides(f, Min(n, |f.active|), r, last);
  }

  /** The aged entries are the oldest ones: a prefix of the window. */
  lemma {:induction false} AgedIsPrefix(active: seq<(Id, int)>, epoch: int, maxAge: nat, last: int) returns (k: nat)
    requires Aging(active, last)
    ensures k <= |active| && Aged(active, epoch, maxAge) == Ids(active[..k])
    ensures forall i :: 0 <= i < |active| ==> (epoch - active[i].1 >= maxAge <==> i < k)
    decreases |active|
  {
    if active == [] {
      k := 0;
    } else {
      var rest := AgedIsPrefix(active[1..], epoch, maxAge, last);
      if epoch - active[0].1 >= maxAge {
        k := rest + 1;
        assert active[..k] == [active[0]] + active[1..][..rest];
        assert Ids(active[..k]) == [active[0].0] + Ids(active[1..][..rest]);
      } else {
        k := 0;
        assert rest == 0;
      }
    }
  }

  lemma RetireAgedSlides(p: Params, f: Frontier, epoch: int, r: nat, last: int) returns (left: nat)
    requires Slides(f, r, last)
    ensures Slides(RetireAged(p, f, epoch).0, left, last)
    ensures left == r + RetireAged(p, f, epoch).1 && (p.maxAge.None? ==> RetireAged(p, f, epoch).1 == 0)
    ensures SameOrder(f, RetireAged(p, f, epoch).0) && RetireAged(p, f, epoch).0.reservePtr == f.reservePtr
  {
    left := r;
    if p.maxAge.Some? {
      var k := AgedIsPrefix(f.active, epoch, p.maxAge.value, last);
      left := r + k;
      RetireSlides(f, k, r, last);
    }
  }

  /** What one step did: the snapshot's counts are the moves of the two pointers. */
  ghost predicate Moved(f: Frontier, g: Frontier, snap: Snapshot) {
    SameOrder(f, g) && g.reservePtr == f.reservePtr + snap.activated
    && snap.activated == Min(snap.retired, |f.order| - f.reservePtr)
  }

  lemma RefillSlides(f: Frontier, ret: nat, epoch: int, rate: nat, r: nat, last: int)
    requires Slides(f, r, last) && last <= epoch
    ensures Slides(Refill(f, ret, epoch, rate).0, r, epoch)
    ensures Moved(f, Refill(f, ret, epoch, rate).0, Refill(f, ret, epoch, rate).1)
    ensures Refill(f, ret, epoch, rate).1.retired == ret
  {
    ActivateSlides(f, ret, epoch, r, last);
  }

  lemma RotateSlides(g: Frontier, ret: nat, epoch: int, rate: nat, r: nat, last: int) returns (left: nat)
    requires Slides(g, r, last) && last <= epoch
    ensures Slides(Rotate(g, ret, epoch, rate).0, left, epoch)
    ensures Moved(g, Rotate(g, ret, epoch, rate).0, Rotate(g, ret, epoch, rate).1)
    ensures left == r + Rotate(g, ret, epoch, rate).1.retired - ret && left <= r + rate
  {
    left := RetireOldestSlides(g, rate, r, last);
    var (h, more) := RetireOldest(g, rate);
    RefillAfter(g, h, ret + more, epoch, rate, left, last);
  }

  lemma RefillAfter(g: Frontier, h: Frontier, ret: nat, epoch: int, rate: nat, r: nat, last: int)
    requires Slides(h, r, last) && last <= epoch && SameOrder(g, h) && h.reservePtr == g.reservePtr
    ensures Slides(Refill(h, ret, epoch, rate).0, r, epoch)
    ensures Moved(g, Refill(h, ret, epoch, rate).0, Refill(h, ret, epoch, rate).1)
    ensures Refill(h, ret, epoch, rate).1.retired == ret
  {
    RefillSlides(h, ret, epoch, rate, r, last);
    MovedAfter(g, h, Refill(h, ret, epoch, rate).0, Refill(h, ret, epoch, rate).1);
  }

  lemma MovedAfter(f: Frontier, g: Frontier, h: Frontier, snap: Snapshot)
    requires SameOrder(f, g) && g.reservePtr == f.reservePtr && Moved(g, h, snap)
    ensures Moved(f, h, snap)
  {
  }

  lemma ChurnSlides(p: Params, f: Frontier, epoch: int, ewma: Option<real>, rate: nat, r: nat, last: int)
    returns (left: nat)
    requires Slides(f, r, last) && last <= epoch
    ensures Slides(Churn(p, f, epoch, ewma, rate).0, left, epoch)
    ensures Moved(f, Churn(p, f, epoch, ewma, rate).0, Churn(p, f, epoch, ewma, rate).1)
    ensures left == r + Churn(p, f, epoch, ewma, rate).1.retired && (p.maxAge.None? ==> left <= r + rate)
  {
    left := RetireAgedSlides(p, f, epoch, r, last);
    var (g, ret) := RetireAged(p, f, epoch);
    var (h, snap) := Churn(p, f, epoch, ewma, rate);
    if p.mode == Off || p.mode == C0 {
      RefillSlides(g, ret, epoch, 0, left, last);
      MovedAfter(f, g, h, snap);
    } else {
      left := RotateSlides(g.(ewmaAccepts := ewma), ret, epoch, rate, left, last);
      MovedAfter(f, g.(ewmaAccepts := ewma), h, snap);
    }
  }

  /** One epoch: the window slides right, and the two counts of the snapshot say by how much. With
      no age limit as many ids are activated as retired. */
  lemma StepSlides(p: Params, f: Frontier, epoch: int, prev: Option<real>, quality: Option<nat>, r: nat, last: int)
    returns (left: nat)
    requires Slides(f, r, last) && last <= epoch
    ensures var (g, snap) := StepEpoch(p, f, epoch, prev, quality);
            && Slides(g, left, epoch) && left == r + snap.retired
            && g.order == f.order && g.window == f.window && g.initialized
            && g.reservePtr == f.reservePtr + snap.activated
            && snap.activated == Min(if f.initialized then snap.retired else f.window, |f.order| - f.reservePtr)
            && (f.initialized && p.maxAge.None? ==> snap.activated == snap.retired)
  {
    if !f.initialized {
      left := r;
      ActivateSlides(f.(initialized := true), f.window, epoch, r, last);
    } else {
      left := ChurnSlides(p, f, epoch, Ewma(p, f.ewmaAccepts, prev), RateOf(p, f, prev, quality), r, last);
    }
  }

  lemma {:induction false} UnseenNoDuplicates(f: Frontier, newIds: seq<Id>)
    requires NoDuplicates(newIds)
    ensures NoDuplicates(Unseen(f, newIds))
  {
    if newIds != [] {
      UnseenNoDuplicates(f, newIds[1..]);
    }
  }

  lemma RearrangedNoDuplicates(a: seq<Id>, b: seq<Id>)
    requires NoDuplicates(a) && multiset(a) == multiset(b)
    ensures NoDuplicates(b) && (forall x :: x in b <==> x in a)
  {
    assert forall x :: x in b <==> x in multiset(b);
    assert forall x :: x in a <==> x in multiset(a);
    forall i, j | 0 <= i < j < |b|
      ensures b[i] != b[j]
    {
      if b[i] == b[j] {
        TwiceEach(b, i, j);
        OnceEach(a, b[i]);
        assert false;
      }
    }
  }

  lemma TwiceEach(b: seq<Id>, i: nat, j: nat)
    requires i < j < |b| && b[i] == b[j]
    ensures multiset(b)[b[i]] >= 2
  {
    assert b == b[..i] + [b[i]] + b[i + 1..j] + [b[j]] + b[j + 1..];
  }

  lemma {:induction false} OnceEach(a: seq<Id>, x: Id)
    requires NoDuplicates(a)
    ensures multiset(a)[x] <= 1
  {
    if a != [] {
      OnceEach(a[1..], x);
      assert a == [a[0]] + a[1..];
      if a[0] == x {
        assert x !in multiset(a[1..]);
      }
    }
  }

  lemma InterleavedDistinct(p: Params, ids: seq<Id>, familyOf: Id -> Family)
    requires NoDuplicates(ids)
    ensures var order := Interleaved(p.seeding, familyOf, ids);
            NoDuplicates(order) && |order| == |ids| && forall x :: x in order <==> x in ids
  {
    var order := Interleaved(p.seeding, familyOf, ids);
    InterleavedRearranges(p.seeding, familyOf, ids);
    RearrangedNoDuplicates(ids, order);
    assert |multiset(order)| == |order| && |multiset(ids)| == |ids|;
  }

  /** Injected ids enter the reserve just behind the right pointer; the window does not move. */
  lemma AddSlides(p: Params, f: Frontier, newIds: seq<Id>, familyOf: Id -> Family, r: nat, last: int)
    requires Slides(f, r, last) && NoDuplicates(newIds)
    ensures var (g, n) := AddReserveIds(p, f, newIds, familyOf);
            && Slides(g, r, last) && n == |Unseen(f, newIds)|
            && g.order[..f.reservePtr] == f.order[..f.reservePtr]
            && g == f.(order := g.order, injectedSinceLastStep := g.injectedSinceLastStep)
  {
    var unseen := Unseen(f, newIds);
    if unseen != [] {
      UnseenNoDuplicates(f, newIds);
      var segment := Interleaved(p.seeding, familyOf, unseen);
      InterleavedDistinct(p, unseen, familyOf);
      var g := AddReserveIds(p, f, newIds, familyOf).0;
      assert g.order[..f.reservePtr] == f.order[..f.reservePtr];
      assert g.order[..r] == f.order[..r];
      assert NoDuplicates(g.order) by {
        SplicedNoDuplicates(f.order, f.reservePtr, segment);
      }
    }
  }

  lemma SplicedNoDuplicates(order: seq<Id>, at: nat, segment: seq<Id>)
    requires NoDuplicates(order) && NoDuplicates(segment) && at <= |order|
    requires forall x :: x in segment ==> x !in order
    ensures NoDuplicates(order[..at] + segment + order[at..])
  {
    var spliced := order[..at] + segment + order[at..];
    forall i, j | 0 <= i < j < |spliced|
      ensures spliced[i] != spliced[j]
    {
      var n := |segment|;
      var inside := (k: int) => at <= k < at + n;
      assert inside(i) ==> spliced[i] in segment;
      assert inside(j) ==> spliced[j] in segment;
      assert !inside(i) ==> spliced[i] == order[if i < at then i else i - n];
      assert !inside(j) ==> spliced[j] == order[if j < at then j else j - n];
    }
  }

  // ── runs ─────────────────────────────────────────────────────────────────────

  datatype Command =
    | Step(epoch: int, prev: Option<real>, quality: Option<nat>)
    | Add(newIds: seq<Id>, familyOf: Id -> Family)

  function Exec(p: Params, f: Frontier, c: Command): (r: (Frontier, seq<Snapshot>)) {
    match c
    case Step(epoch, prev, quality) => var (g, snap) := StepEpoch(p, f, epoch, prev, quality); (g, [snap])
    case Add(newIds, familyOf) => if f.reservePtr <= |f.order| then (AddReserveIds(p, f, newIds, familyOf).0, [])
      else (f, [])
  }

  /** The frontier after a run and the snapshots it returned. */
  function Run(p: Params, f: Frontier, cs: seq<Command>): (Frontier, seq<Snapshot>)
    decreases |cs|
  {
    if cs == [] then (f, [])
    else
      var (g, snaps) := Exec(p, f, cs[0]);
      var (h, more) := Run(p, g, cs[1..]);
      (h, snaps + more)
  }

  /** Epochs do not go back and injected batches are distinct. */
  ghost predicate Orderly(cs: seq<Command>, last: int) {
    cs != [] ==>
      match cs[0]
      case Step(epoch, _, _) => last <= epoch && Orderly(cs[1..], epoch)
      case Add(newIds, _) => NoDuplicates(newIds) && Orderly(cs[1..], last)
  }

  /** Before the first step nothing is active; after it, without an age limit, exactly K ids are. */
  ghost predicate HoldsK(p: Params, f: Frontier) {
    if f.initialized then p.maxAge.None? ==> |f.active| == f.window
    else f.active == [] && f.reservePtr == 0 && f.window <= |f.order|
  }

  /** One command moves neither pointer back and never rewrites what the right one has passed. */
  ghost predicate Forward(f: Frontier, g: Frontier) {
    f.reservePtr <= g.reservePtr <= |g.order| && f.reservePtr <= |f.order|
    && g.order[..f.reservePtr] == f.order[..f.reservePtr] && g.window == f.window
  }

  lemma ExecSlides(p: Params, f: Frontier, c: Command, r: nat, last: int) returns (left: nat)
    requires Slides(f, r, last) && HoldsK(p, f)
    requires c.Step? ==> last <= c.epoch
    requires c.Add? ==> NoDuplicates(c.newIds)
    ensures Slides(Exec(p, f, c).0, left, if c.Step? then c.epoch else last) && r <= left
    ensures HoldsK(p, Exec(p, f, c).0) && Forward(f, Exec(p, f, c).0)
  {
    if c.Step? {
      left := StepSlides(p, f, c.epoch, c.prev, c.quality, r, last);
    } else {
      left := r;
      AddSlides(p, f, c.newIds, c.familyOf, r, last);
    }
  }

  lemma {:induction false} RunSlides(p: Params, f: Frontier, cs: seq<Command>, r: nat, last: int)
    returns (left: nat, end: int)
    requires Slides(f, r, last) && HoldsK(p, f) && Orderly(cs, last)
    ensures Slides(Run(p, f, cs).0, left, end) && r <= left
    ensures HoldsK(p, Run(p, f, cs).0) && Forward(f, Run(p, f, cs).0)
    decreases |cs|
  {
    if cs == [] {
      left, end := r, last;
    } else {
      var g := Exec(p, f, cs[0]).0;
      left := ExecSlides(p, f, cs[0], r, last);
      left, end := RunSlides(p, g, cs[1..], left, if cs[0].Step? then cs[0].epoch else last);
      ForwardChains(f, g, Run(p, g, cs[1..]).0);
    }
  }

  lemma ForwardChains(f: Frontier, g: Frontier, h: Frontier)
    requires Forward(f, g) && Forward(g, h)
    ensures Forward(f, h)
  {
    assert h.order[..f.reservePtr] == h.order[..g.reservePtr][..f.reservePtr];
    assert g.order[..f.reservePtr] == g.order[..g.reservePtr][..f.reservePtr];
  }

  lemma MadeSlides(p: Params, ids: seq<Id>, familyOf: Id -> Family, start: int)
    requires NoDuplicates(ids)
    ensures Slides(Make(p, ids, familyOf), 0, start) && HoldsK(p, Make(p, ids, familyOf))
    ensures |Make(p, ids, familyOf).order| == |ids| && Make(p, ids, familyOf).window == WindowSize(p, ids)
  {
    InterleavedDistinct(p, ids, familyOf);
  }

  /** Whatever a frontier went through: retired ids are order[0..left), active ids order[left..right),
      in that order; with no age limit exactly K ids are active once initialised. */
  lemma FrontierIsAWindow(p: Params, ids: seq<Id>, familyOf: Id -> Family, cs: seq<Command>, start: int)
    returns (left: nat)
    requires NoDuplicates(ids) && Orderly(cs, start)
    ensures var f := Run(p, Make(p, ids, familyOf), cs).0;
            && left <= f.reservePtr <= |f.order| && NoDuplicates(f.order)
            && f.retired == (set x | x in f.order[..left])
            && Ids(f.active) == f.order[left..f.reservePtr]
            && f.cumulativeRetired == left && f.cumulativeActivated == f.reservePtr
            && (f.initialized && p.maxAge.None? ==> |f.active| == WindowSize(p, ids))
  {
    var f0 := Make(p, ids, familyOf);
    MadeSlides(p, ids, familyOf, start);
    var end;
    left, end := RunSlides(p, f0, cs, 0, start);
    var f := Run(p, f0, cs).0;
    ActiveIds(f.order, f.active, left);
  }

  lemma ActiveIds(order: seq<Id>, active: seq<(Id, int)>, r: nat)
    requires ActiveRun(order, active, r)
    ensures Ids(active) == order[r..r + |active|]
  {
  }

  /** No id ever returns: once retired it stays retired and is never active again. */
  lemma RetiredForGood(p: Params, f: Frontier, cs: seq<Command>, r: nat, last: int, x: Id)
    requires Slides(f, r, last) && HoldsK(p, f) && Orderly(cs, last) && x in f.retired
    ensures x in Run(p, f, cs).0.retired && x !in Ids(Run(p, f, cs).0.active)
  {
    var left, end := RunSlides(p, f, cs, r, last);
    var g := Run(p, f, cs).0;
    var i :| 0 <= i < r && f.order[i] == x;
    assert g.order[..f.reservePtr][i] == x;
    assert x in g.order[..left];
    forall j | 0 <= j < |g.active|
      ensures Ids(g.active)[j] != x
    {
      assert g.active[j].0 == g.order[left + j];
    }
  }

  // ── export and restore ───────────────────────────────────────────────────────

  /** exportState: every variable except K, which is recomputed on restore. */
  datatype RuntimeState = RuntimeState(
    order: seq<Id>, reservePtr: nat, active: seq<(Id, int)>, retired: set<Id>,
    cumulativeActivated: nat, cumulativeRetired: nat,
    initialized: bool, injectedSinceLastStep: nat, ewmaAccepts: Option<real>)

  function ExportState(f: Frontier): RuntimeState {
    RuntimeState(f.order, f.reservePtr, f.active, f.retired, f.cumulativeActivated, f.cumulativeRetired,
                 f.initialized, f.injectedSinceLastStep, f.ewmaAccepts)
  }

  /** makeEpochFrontier with an initialState; None is the throw on an unknown id. */
  function Restore(p: Params, known: set<Id>, s: RuntimeState): Option<Frontier> {
    if (exists x :: x in s.order && x !in known) || (exists x :: x in Ids(s.active) && x !in known)
      || !(s.retired <= known)
    then None
    else Some(Frontier(s.order, WindowSize(p, s.order), s.reservePtr, s.active, s.retired, s.cumulativeActivated,
                       s.cumulativeRetired, s.initialized, s.injectedSinceLastStep, s.ewmaAccepts))
  }

  lemma {:induction false} ActivateIgnoresWindow(f: Frontier, n: nat, epoch: int, k: nat)
    ensures ActivateNext(f.(window := k), n, epoch) ==
            (ActivateNext(f, n, epoch).0.(window := k), ActivateNext(f, n, epoch).1)
    decreases |f.order| - f.reservePtr
  {
    if n > 0 && f.reservePtr < |f.order| {
      var id := f.order[f.reservePtr];
      var moved := f.(reservePtr := f.reservePtr + 1);
      if id in Ids(f.active) || id in f.retired {
        ActivateIgnoresWindow(moved, n, epoch, k);
      } else {
        ActivateIgnoresWindow(moved.(active := f.active + [(id, epoch)],
                                     cumulativeActivated := f.cumulativeActivated + 1),
                              n - 1, epoch, k);
      }
    }
  }

  lemma RefillIgnoresWindow(f: Frontier, ret: nat, epoch: int, rate: nat, k: nat)
    ensures Refill(f.(window := k), ret, epoch, rate) ==
            (Refill(f, ret, epoch, rate).0.(window := k), Refill(f, ret, epoch, rate).1)
  {
    ActivateIgnoresWindow(f, ret, epoch, k);
  }

  lemma RotateIgnoresWindow(f: Frontier, ret: nat, epoch: int, rate: nat, k: nat)
    ensures Rotate(f.(window := k), ret, epoch, rate) ==
            (Rotate(f, ret, epoch, rate).0.(window := k), Rotate(f, ret, epoch, rate).1)
  {
    var (h, more) := RetireOldest(f, rate);
    assert RetireOldest(f.(window := k), rate) == (h.(window := k), more);
    RefillIgnoresWindow(h, ret + more, epoch, rate, k);
  }

  lemma ChurnIgnoresWindow(p: Params, f: Frontier, epoch: int, ewma: Option<real>, rate: nat, k: nat)
    ensures Churn(p, f.(window := k), epoch, ewma, rate)
            == (Churn(p, f, epoch, ewma, rate).0.(window := k), Churn(p, f, epoch, ewma, rate).1)
  {
    var (g, ret) := RetireAged(p, f, epoch);
    assert RetireAged(p, f.(window := k), epoch) == (g.(window := k), ret);
    if p.mode == Off || p.mode == C0 {
      RefillIgnoresWindow(g, ret, epoch, 0, k);
    } else {
      RotateIgnoresWindow(g.(ewmaAccepts := ewma), ret, epoch, rate, k);
    }
  }

  lemma {:induction false} RunIgnoresWindow(p: Params, f: Frontier, cs: seq<Command>, k: nat)
    requires f.initialized
    ensures Run(p, f.(window := k), cs) == (Run(p, f, cs).0.(window := k), Run(p, f, cs).1)
    decreases |cs|
  {
    if cs != [] {
      var g := Exec(p, f, cs[0]).0;
      ExecIgnoresWindow(p, f, cs[0], k);
      RunIgnoresWindow(p, g, cs[1..], k);
    }
  }

  lemma ExecIgnoresWindow(p: Params, f: Frontier, c: Command, k: nat)
    requires f.initialized
    ensures Exec(p, f.(window := k), c) == (Exec(p, f, c).0.(window := k), Exec(p, f, c).1)
    ensures Exec(p, f, c).0.initialized
  {
    if c.Step? {
      var ewma, rate := Ewma(p, f.ewmaAccepts, c.prev), RateOf(p, f, c.prev, c.quality);
      assert RateOf(p, f.(window := k), c.prev, c.quality) == rate;
      ChurnIgnoresWindow(p, f, c.epoch, ewma, rate, k);
      ChurnStaysInitialised(p, f, c.epoch, ewma, rate);
    } else {
      UnseenIgnoresWindow(f, c.newIds, k);
    }
  }

  lemma {:induction false} UnseenIgnoresWindow(f: Frontier, newIds: seq<Id>, k: nat)
    ensures Unseen(f.(window := k), newIds) == Unseen(f, newIds)
  {
    if newIds != [] {
      UnseenIgnoresWindow(f, newIds[1..], k);
    }
  }

  lemma {:induction false} ActivateKeepsFlag(f: Frontier, n: nat, epoch: int)
    ensures ActivateNext(f, n, epoch).0.initialized == f.initialized
    decreases |f.order| - f.reservePtr
  {
    if n > 0 && f.reservePtr < |f.order| {
      var id := f.order[f.reservePtr];
      var moved := f.(reservePtr := f.reservePtr + 1);
      ActivateKeepsFlag(moved, n, epoch);
      ActivateKeepsFlag(moved.(active := f.active + [(id, epoch)], cumulativeActivated := f.cumulativeActivated + 1),
                        n - 1, epoch);
    }
  }

  lemma ChurnStaysInitialised(p: Params, f: Frontier, epoch: int, ewma: Option<real>, rate: nat)
    ensures Churn(p, f, epoch, ewma, rate).0.initialized == f.initialized
  {
    var (g, ret) := RetireAged(p, f, epoch);
    var (h, more) := RetireOldest(g.(ewmaAccepts := ewma), rate);
    ActivateKeepsFlag(g, ret, epoch);
    ActivateKeepsFlag(h, ret + more, epoch);
  }

  /** Exporting an initialised frontier and restoring it over ids that include its own gives a
      frontier that answers every later run with the same snapshots. */
  lemma RestoreBisimulates(p: Params, f: Frontier, known: set<Id>, cs: seq<Command>)
    requires f.initialized
    requires (forall x :: x in f.order ==> x in known) && (forall x :: x in Ids(f.active) ==> x in known)
    requires f.retired <= known
    ensures var g := Restore(p, known, ExportState(f));
            && g.Some?
            && Run(p, g.value, cs).1 == Run(p, f, cs).1
            && ExportState(Run(p, g.value, cs).0) == ExportState(Run(p, f, cs).0)
  {
    var g := Restore(p, known, ExportState(f)).value;
    assert g == f.(window := g.window);
    RunIgnoresWindow(p, f, cs, g.window);
  }

  /** Before the first step K still matters: the restored frontier activates the recomputed K. */
  lemma UninitialisedRestoreUsesNewWindow(p: Params, f: Frontier, known: set<Id>, epoch: int, r: nat, last: int)
    requires Slides(f, r, last) && !f.initialized && last <= epoch
    requires Restore(p, known, ExportState(f)).Some?
    ensures var g := Restore(p, known, ExportState(f)).value;
            var room := |f.order| - f.reservePtr;
            StepEpoch(p, g, epoch, None, None).1.activated == StepEpoch(p, f, epoch, None, None).1.activated
            <==> Min(WindowSize(p, f.order), room) == Min(f.window, room)
  {
    var g := Restore(p, known, ExportState(f)).value;
    ActivateSlides(f.(initialized := true), f.window, epoch, r, last);
    ActivateSlides(g.(initialized := true), g.window, epoch, r, last);
  }

  lemma {:induction false} AllUnseen(f: Frontier, newIds: seq<Id>)
    requires forall x :: x in newIds ==> x !in Ids(f.active) && x !in f.retired && x !in f.order
    ensures Unseen(f, newIds) == newIds
  {
    if newIds != [] {
      assert newIds[0] in newIds;
      assert forall x :: x in newIds[1..] ==> x in newIds;
      AllUnseen(f, newIds[1..]);
    }
  }

  lemma FirstActivates(p: Params, f: Frontier, epoch: int)
    requires Slides(f, 0, epoch) && !f.initialized && f.reservePtr == 0
    ensures StepEpoch(p, f, epoch, None, None).1.activated == Min(f.window, |f.order|)
  {
    ActivateSlides(f.(initialized := true), f.window, epoch, 0, epoch);
  }

  /** Ids injected into a fresh frontier. */
  lemma InjectedFresh(p: Params, ids: seq<Id>, more: seq<Id>, familyOf: Id -> Family, epoch: int) returns (f: Frontier)
    requires NoDuplicates(ids) && NoDuplicates(more) && more != [] && forall x :: x in more ==> x !in ids
    ensures f == Run(p, Make(p, ids, familyOf), [Add(more, familyOf)]).0
    ensures Slides(f, 0, epoch) && !f.initialized && f.reservePtr == 0 && f.active == [] && f.retired == {}
    ensures f.window == WindowSize(p, ids) && |f.order| == |ids| + |more|
            && forall x :: x in f.order ==> x in ids + more
  {
    var f0 := Make(p, ids, familyOf);
    MadeSlides(p, ids, familyOf, epoch);
    InterleavedDistinct(p, ids, familyOf);
    AllUnseen(f0, more);
    f := Injected(p, f0, more, familyOf, epoch);
    RunOne(p, f0, Add(more, familyOf));
  }

  lemma RunOne(p: Params, f: Frontier, c: Command)
    ensures Run(p, f, [c]).0 == Exec(p, f, c).0
  {
    assert [c][1..] == [];
  }

  lemma Injected(p: Params, f0: Frontier, more: seq<Id>, familyOf: Id -> Family, epoch: int) returns (f: Frontier)
    requires Slides(f0, 0, epoch) && f0.reservePtr == 0 && NoDuplicates(more) && more != [] && Unseen(f0, more) == more
    ensures f == AddReserveIds(p, f0, more, familyOf).0 && Slides(f, 0, epoch)
    ensures f == f0.(order := f.order, injectedSinceLastStep := f.injectedSinceLastStep)
    ensures |f.order| == |f0.order| + |more| && forall x :: x in f.order ==> x in f0.order || x in more
  {
    InterleavedDistinct(p, more, familyOf);
    AddSlides(p, f0, more, familyOf, 0, epoch);
    f := AddReserveIds(p, f0, more, familyOf).0;
    SplicedAtStart(f0.order, Interleaved(p.seeding, familyOf, more));
  }

  lemma SplicedAtStart(order: seq<Id>, segment: seq<Id>)
    ensures order[..0] + segment + order[0..] == segment + order
  {
  }

  /** A run where it shows: without a window size K is all ids; ids injected before the first step are
      not in the old K but are in the recomputed one. */
  lemma RestoreBeforeFirstStepDiffers(p: Params, ids: seq<Id>, more: seq<Id>, familyOf: Id -> Family, known: set<Id>,
                                      epoch: int)
    requires p.activeWindow.None? && NoDuplicates(ids) && NoDuplicates(more) && more != []
    requires (forall x :: x in more ==> x !in ids) && (forall x :: x in ids + more ==> x in known)
    ensures var f := Run(p, Make(p, ids, familyOf), [Add(more, familyOf)]).0;
            var g := Restore(p, known, ExportState(f));
            && g.Some?
            && StepEpoch(p, f, epoch, None, None).1.activated == |ids|
            && StepEpoch(p, g.value, epoch, None, None).1.activated == |ids| + |more|
  {
    var f := InjectedFresh(p, ids, more, familyOf, epoch);
    FirstActivates(p, f, epoch);
    FirstActivates(p, f.(window := WindowSize(p, f.order)), epoch);
    assert Restore(p, known, ExportState(f)).value == f.(window := WindowSize(p, f.order));
  }

  // ── the closure as an object ─────────────────────────────────────────────────

  class Controller {
    const params: Params
    const window: nat
    var order: seq<Id>
    var reservePtr: nat
    var active: seq<(Id, int)>
    var retired: set<Id>
    var cumulativeActivated: nat
    var cumulativeRetired: nat
    var initialized: bool
    var injectedSinceLastStep: nat
    var ewmaAccepts: Option<real>

    ghost function View(): Frontier
      reads this
    {
      Frontier(order, window, reservePtr, active, retired, cumulativeActivated, cumulativeRetired,
               initialized, injectedSinceLastStep, ewmaAccepts)
    }

    constructor (params: Params, ids: seq<Id>, familyOf: Id -> Family)
      ensures this.params == params && View() == Make(params, ids, familyOf)
    {
      var order := TakeTurns(Groups(params.seeding, familyOf, ids, Names(params.seeding, familyOf, ids)));
      this.params, this.order, this.window := params, order, WindowSize(params, order);
      reservePtr, active, retired := 0, [], {};
      cumulativeActivated, cumulativeRetired, initialized := 0, 0, false;
      injectedSinceLastStep, ewmaAccepts := 0, None;
    }

    constructor Restored(params: Params, s: RuntimeState)
      ensures this.params == params
      ensures forall known :: Restore(params, known, s).Some? ==> View() == Restore(params, known, s).value
    {
      this.params, this.order, this.window := params, s.order, WindowSize(params, s.order);
      reservePtr, active, retired := s.reservePtr, s.active, s.retired;
      cumulativeActivated, cumulativeRetired, initialized := s.cumulativeActivated, s.cumulativeRetired, s.initialized;
      injectedSinceLastStep, ewmaAccepts := s.injectedSinceLastStep, s.ewmaAccepts;
    }

    method ActivateNextIds(n: nat, epoch: int) returns (a: nat)
      modifies this
      ensures (View(), a) == ActivateNext(old(View()), n, epoch)
    {
      a := 0;
      while a < n && reservePtr < |order|
        invariant a <= n
        invariant ActivateNext(old(View()), n, epoch) ==
                  (ActivateNext(View(), n - a, epoch).0, a + ActivateNext(View(), n - a, epoch).1)
        decreases |order| - reservePtr
      {
        var id := order[reservePtr];
        reservePtr := reservePtr + 1;
        if id !in Ids(active) && id !in retired {
          active := active + [(id, epoch)];
          a := a + 1;
          cumulativeActivated := cumulativeActivated + 1;
        }
      }
    }

    /** The deletion loop shared by the age sweep and retireOldest. */
    method RetireIds(ids: seq<Id>)
      modifies this
      ensures View() == Retire(old(View()), ids)
    {
      var i := 0;
      while i < |ids|
        invariant i <= |ids|
        invariant WithoutAll(old(active), ids) == WithoutAll(active, ids[i..])
        invariant retired == old(retired) + (set x | x in ids[..i])
        invariant cumulativeRetired == old(cumulativeRetired) + i
        invariant View() == old(View()).(active := active, retired := retired, cumulativeRetired := cumulativeRetired)
      {
        assert ids[..i + 1] == ids[..i] + [ids[i]];
        active := Without(active, ids[i]);
        retired := retired + {ids[i]};
        cumulativeRetired := cumulativeRetired + 1;
        i := i + 1;
      }
      assert ids[..i] == ids;
    }

    method RetireOldestIds(n: nat) returns (k: nat)
      modifies this
      ensures (View(), k) == RetireOldest(old(View()), n)
    {
      var sorted := SortByAge(order, active);
      k := if n <= |sorted| then n else |sorted|;
      RetireIds(Ids(sorted[..k]));
    }

    method TakeSnapshot(epoch: int, activated: nat, ret: nat, rate: nat) returns (snap: Snapshot)
      ensures snap == Snap(View(), epoch, activated, ret, rate)
    {
      snap := Snapshot(epoch, |active|, activated, ret, rate, |order| - reservePtr,
                       cumulativeActivated, cumulativeRetired, (set x | x in Ids(active)),
                       (set i | reservePtr <= i < |order| :: order[i]), retired);
    }

    method NextEpoch(epoch: int, prev: Option<real>, quality: Option<nat>) returns (snap: Snapshot)
      modifies this
      ensures (View(), snap) == StepEpoch(params, old(View()), epoch, prev, quality)
    {
      if !initialized {
        initialized := true;
        var first := ActivateNextIds(window, epoch);
        injectedSinceLastStep := 0;
        snap := TakeSnapshot(epoch, first, 0, 0);
        return;
      }
      var rate := Rate(params, injectedSinceLastStep, |order| - reservePtr, Ewma(params, ewmaAccepts, prev), prev,
                       quality);
      var ewma := Ewma(params, ewmaAccepts, prev);
      snap := ChurnAt(epoch, ewma, rate);
    }

    method SweepAged(epoch: int) returns (ret: nat)
      modifies this
      ensures (View(), ret) == RetireAged(params, old(View()), epoch)
    {
      ret := 0;
      if params.maxAge.Some? {
        var aged := Aged(active, epoch, params.maxAge.value);
        RetireIds(aged);
        ret := |aged|;
      }
    }

    method RefillFrom(ret: nat, epoch: int, rate: nat) returns (snap: Snapshot)
      modifies this
      ensures (View(), snap) == Refill(old(View()), ret, epoch, rate)
    {
      var a := ActivateNextIds(ret, epoch);
      injectedSinceLastStep := 0;
      snap := TakeSnapshot(epoch, a, ret, rate);
    }

    method ChurnAt(epoch: int, ewma: Option<real>, rate: nat) returns (snap: Snapshot)
      modifies this
      ensures (View(), snap) == Churn(params, old(View()), epoch, ewma, rate)
    {
      var ret := SweepAged(epoch);
      if params.mode == Off || params.mode == C0 {
        snap := RefillFrom(ret, epoch, 0);
      } else {
        ewmaAccepts := ewma;
        var more := RetireOldestIds(rate);
        snap := RefillFrom(ret + more, epoch, rate);
      }
    }

    method FindUnseen(newIds: seq<Id>) returns (unseen: seq<Id>)
      ensures unseen == Unseen(View(), newIds)
    {
      unseen := [];
      var i := |newIds|;
      while i > 0
        invariant 0 <= i <= |newIds|
        invariant unseen == Unseen(View(), newIds[i..])
      {
        i := i - 1;
        if newIds[i] !in Ids(active) && newIds[i] !in retired && newIds[i] !in order {
          unseen := [newIds[i]] + unseen;
        }
      }
      assert newIds[0..] == newIds;
    }

    method Inject(newIds: seq<Id>, familyOf: Id -> Family) returns (n: nat)
      requires reservePtr <= |order|
      modifies this
      ensures (View(), n) == AddReserveIds(params, old(View()), newIds, familyOf)
    {
      var unseen := FindUnseen(newIds);
      n := |unseen|;
      if n > 0 {
        var segment := TakeTurns(Groups(params.seeding, familyOf, unseen, Names(params.seeding, familyOf, unseen)));
        order := order[..reservePtr] + segment + order[reservePtr..];
        injectedSinceLastStep := injectedSinceLastStep + n;
      }
    }
  }
}
