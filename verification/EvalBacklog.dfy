/** The validator's backlog of accepted advances whose score replay is still owed, over committed
    sync passes. */
module EvalBacklog {
  import opened Wrappers

  type Hash = int
  datatype CortexState = CortexState(words: seq<int>)

  /** An advance is identified by (epochId, artifactHash); its snapshot file is named after both. */
  datatype Key = Key(epochId: nat, artifactHash: Hash)

  datatype Entry = Entry(key: Key, advanceBlock: int, reason: string,
                         parentStateRoot: Hash, corpusRoot: Hash, parentSnapshotRef: Option<Key>)

  // ── upsert and remove ────────────────────────────────────────────────────────

  /** Map.set on an insertion-ordered map: an existing key keeps its place. */
  function SetEntry(list: seq<Entry>, e: Entry): seq<Entry> {
    if list == [] then [e]
    else if list[0].key == e.key then [e] + list[1..]
    else [list[0]] + SetEntry(list[1..], e)
  }

  function Find(list: seq<Entry>, k: Key): Option<Entry> {
    if list == [] then None
    else if list[0].key == k then Some(list[0])
    else Find(list[1..], k)
  }

  /** A re-observed advance keeps its first block, and its snapshot unless it brings one. */
  function Merged(prior: Option<Entry>, e: Entry): Entry {
    if prior.None? then e
    else e.(advanceBlock := prior.value.advanceBlock,
            parentSnapshotRef := if e.parentSnapshotRef.Some? then e.parentSnapshotRef
              else prior.value.parentSnapshotRef)
  }

  function SetAll(list: seq<Entry>, existing: seq<Entry>): seq<Entry>
    decreases |existing|
  {
    if existing == [] then list else SetAll(SetEntry(list, existing[0]), existing[1..])
  }

  function MergeAll(list: seq<Entry>, incoming: seq<Entry>): seq<Entry>
    decreases |incoming|
  {
    if incoming == [] then list
    else MergeAll(SetEntry(list, Merged(Find(list, incoming[0].key), incoming[0])), incoming[1..])
  }

  /** The order of the result: first-seen block, then the key's own order. */
  predicate Before(keyBefore: (Key, Key) -> bool, a: Entry, b: Entry) {
    a.advanceBlock < b.advanceBlock || (a.advanceBlock == b.advanceBlock && keyBefore(a.key, b.key))
  }

  function Insert(keyBefore: (Key, Key) -> bool, e: Entry, sorted: seq<Entry>): (r: seq<Entry>)
    ensures forall x :: x in r <==> x == e || x in sorted
  {
    if sorted == [] || !Before(keyBefore, sorted[0], e) then [e] + sorted
    else
      assert sorted == [sorted[0]] + sorted[1..];
      [sorted[0]] + Insert(keyBefore, e, sorted[1..])
  }

  function Sorted(keyBefore: (Key, Key) -> bool, list: seq<Entry>): (r: seq<Entry>)
    ensures forall x :: x in r <==> x in list
  {
    if list == [] then []
    else
      assert list == [list[0]] + list[1..];
      Insert(keyBefore, list[0], Sorted(keyBefore, list[1..]))
  }

  function Upsert(keyBefore: (Key, Key) -> bool, existing: seq<Entry>, incoming: seq<Entry>): seq<Entry> {
    Sorted(keyBefore, MergeAll(SetAll([], existing), incoming))
  }

  function Remove(list: seq<Entry>, k: Key): (r: seq<Entry>)
    ensures forall x :: x in r <==> x in list && x.key != k
  {
    if list == [] then []
    else
      assert list == [list[0]] + list[1..];
      if list[0].key == k then Remove(list[1..], k) else [list[0]] + Remove(list[1..], k)
  }

  method UpsertEvalBacklog(keyBefore: (Key, Key) -> bool, existing: seq<Entry>, incoming: seq<Entry>)
    returns (r: seq<Entry>)
    ensures r == Upsert(keyBefore, existing, incoming)
  {
    var byKey: seq<Entry> := [];
    for i := 0 to |existing|
      invariant SetAll([], existing) == SetAll(byKey, existing[i..])
    {
      byKey := SetEntry(byKey, existing[i]);
    }
    for i := 0 to |incoming|
      invariant MergeAll(SetAll([], existing), incoming) == MergeAll(byKey, incoming[i..])
    {
      byKey := SetEntry(byKey, Merged(Find(byKey, incoming[i].key), incoming[i]));
    }
    r := Sorted(keyBefore, byKey);
  }

  // ── a backlog is a finite map ────────────────────────────────────────────────

  ghost predicate Unique(list: seq<Entry>) {
    forall i, j :: 0 <= i < j < |list| ==> list[i].key != list[j].key
  }

  /** The list holds exactly the entries of `m`, each once. */
  ghost predicate Lists(list: seq<Entry>, m: map<Key, Entry>) {
    && Unique(list)
    && (forall e :: e in list <==> e.key in m && m[e.key] == e)
    && (forall k :: k in m ==> m[k].key == k)
  }

  lemma {:induction false} FindListed(list: seq<Entry>, m: map<Key, Entry>, k: Key)
    requires Lists(list, m)
    ensures Find(list, k) == if k in m then Some(m[k]) else None
  {
    if k in m {
      assert m[k] in list;
      FindIn(list, m[k]);
    } else {
      FindNotIn(list, k);
    }
  }

  lemma {:induction false} FindIn(list: seq<Entry>, e: Entry)
    requires Unique(list) && e in list
    ensures Find(list, e.key) == Some(e)
  {
    if list[0] != e {
      assert e in list[1..];
      var j :| 0 <= j < |list[1..]| && list[1..][j] == e;
      assert list[j + 1] == e;
      FindIn(list[1..], e);
    }
  }

  lemma {:induction false} FindNotIn(list: seq<Entry>, k: Key)
    requires forall e :: e in list ==> e.key != k
    ensures Find(list, k) == None
  {
    if list != [] {
      assert list[0] in list;
      FindNotIn(list[1..], k);
    }
  }

  lemma {:induction false} SetEntryContents(list: seq<Entry>, e: Entry)
    requires Unique(list)
    ensures Unique(SetEntry(list, e))
    ensures forall x :: x in SetEntry(list, e) <==> x == e || (x in list && x.key != e.key)
  {
    if list != [] {
      var rest := SetEntry(list[1..], e);
      SetEntryContents(list[1..], e);
      assert list == [list[0]] + list[1..];
      if list[0].key == e.key {
        forall x | x in list[1..]
          ensures x.key != e.key
        {
          var j :| 0 <= j < |list[1..]| && list[1..][j] == x;
          assert list[j + 1] == x;
        }
      } else {
        forall j | 0 <= j < |rest|
          ensures rest[j].key != list[0].key
        {
          assert rest[j] in rest;
          if rest[j] != e {
            var i :| 0 <= i < |list[1..]| && list[1..][i] == rest[j];
            assert list[i + 1] == rest[j];
          }
        }
      }
    }
  }

  lemma SetEntryLists(list: seq<Entry>, m: map<Key, Entry>, e: Entry)
    requires Lists(list, m)
    ensures Lists(SetEntry(list, e), m[e.key := e])
  {
    SetEntryContents(list, e);
  }

  lemma {:induction false} InsertUnique(keyBefore: (Key, Key) -> bool, e: Entry, sorted: seq<Entry>)
    requires Unique(sorted) && forall x :: x in sorted ==> x.key != e.key
    ensures Unique(Insert(keyBefore, e, sorted))
  {
    if sorted != [] && Before(keyBefore, sorted[0], e) {
      var rest := Insert(keyBefore, e, sorted[1..]);
      InsertUnique(keyBefore, e, sorted[1..]);
      forall j | 0 <= j < |rest|
        ensures rest[j].key != sorted[0].key
      {
        assert rest[j] in rest;
        assert sorted[0] in sorted;
        if rest[j] != e {
          var i :| 0 <= i < |sorted[1..]| && sorted[1..][i] == rest[j];
          assert sorted[i + 1] == rest[j];
        }
      }
    } else {
      assert forall i :: 0 <= i < |sorted| ==> sorted[i] in sorted;
    }
  }

  lemma {:induction false} SortedUnique(keyBefore: (Key, Key) -> bool, list: seq<Entry>)
    requires Unique(list)
    ensures Unique(Sorted(keyBefore, list))
  {
    if list != [] {
      SortedUnique(keyBefore, list[1..]);
      forall x | x in Sorted(keyBefore, list[1..])
        ensures x.key != list[0].key
      {
        var j :| 0 <= j < |list[1..]| && list[1..][j] == x;
        assert list[j + 1] == x;
      }
      InsertUnique(keyBefore, list[0], Sorted(keyBefore, list[1..]));
    }
  }

  function MergedMap(m: map<Key, Entry>, incoming: seq<Entry>): map<Key, Entry>
    decreases |incoming|
  {
    if incoming == [] then m
    else
      var e := incoming[0];
      MergedMap(m[e.key := Merged(if e.key in m then Some(m[e.key]) else None, e)], incoming[1..])
  }

  lemma {:induction false} SetAllRebuilds(list: seq<Entry>, existing: seq<Entry>)
    requires Unique(list + existing)
    ensures SetAll(list, existing) == list + existing
    decreases |existing|
  {
    if existing == [] {
      assert list + existing == list;
    } else {
      assert forall i :: 0 <= i < |list| ==> list[i] == (list + existing)[i];
      assert (list + existing)[|list|] == existing[0];
      SetEntryAppends(list, existing[0]);
      assert list + existing == (list + [existing[0]]) + existing[1..];
      SetAllRebuilds(list + [existing[0]], existing[1..]);
    }
  }

  lemma {:induction false} SetEntryAppends(list: seq<Entry>, e: Entry)
    requires forall i :: 0 <= i < |list| ==> list[i].key != e.key
    ensures SetEntry(list, e) == list + [e]
  {
    if list != [] {
      SetEntryAppends(list[1..], e);
    }
  }

  lemma {:induction false} MergeAllLists(list: seq<Entry>, m: map<Key, Entry>, incoming: seq<Entry>)
    requires Lists(list, m)
    ensures Lists(MergeAll(list, incoming), MergedMap(m, incoming))
    decreases |incoming|
  {
    if incoming != [] {
      var e := incoming[0];
      FindListed(list, m, e.key);
      var merged := Merged(Find(list, e.key), e);
      SetEntryLists(list, m, merged);
      MergeAllLists(SetEntry(list, merged), m[e.key := merged], incoming[1..]);
    }
  }

  /** Upserting into a backlog is merging into a map: nothing is dropped, nothing is doubled. */
  lemma UpsertLists(keyBefore: (Key, Key) -> bool, existing: seq<Entry>, m: map<Key, Entry>, incoming: seq<Entry>)
    requires Lists(existing, m)
    ensures Lists(Upsert(keyBefore, existing, incoming), MergedMap(m, incoming))
  {
    assert [] + existing == existing;
    SetAllRebuilds([], existing);
    MergeAllLists(existing, m, incoming);
    SortedUnique(keyBefore, MergeAll(existing, incoming));
  }

  lemma {:induction false} RemoveUnique(list: seq<Entry>, k: Key)
    requires Unique(list)
    ensures Unique(Remove(list, k))
  {
    if list != [] {
      var rest := Remove(list[1..], k);
      RemoveUnique(list[1..], k);
      forall j | 0 <= j < |rest|
        ensures rest[j].key != list[0].key
      {
        assert rest[j] in rest;
        var i :| 0 <= i < |list[1..]| && list[1..][i] == rest[j];
        assert list[i + 1] == rest[j];
      }
    }
  }

  lemma RemoveLists(list: seq<Entry>, m: map<Key, Entry>, k: Key)
    requires Lists(list, m)
    ensures Lists(Remove(list, k), m - {k})
  {
    RemoveUnique(list, k);
  }

  // ── one sync pass ────────────────────────────────────────────────────────────

  /** An accepted advance of the replay window, with the state its patch was applied to. */
  datatype Advance = Advance(key: Key, block: int, parentStateRoot: Hash, corpusRoot: Hash, parentState: CortexState)

  /** What the chain, the corpus chain and the scorer answer for one entry. */
  datatype Verdict = Unrevealed | ContextUnresolved | ReplayFails | ReplayPasses

  datatype State = State(backlog: seq<Entry>, verifiedThrough: int, cursor: int, files: map<Key, CortexState>)

  datatype SyncPass = SyncPass(advances: seq<Advance>, newCursor: int, skipReplay: bool, versionMatch: bool,
                               verdict: Entry -> Verdict)

  datatype Env = Env(merkle: CortexState -> Hash, keyBefore: (Key, Key) -> bool)

  function EntryOf(a: Advance, cursor: int): Entry {
    Entry(a.key, cursor, "awaiting_epoch_secret_reveal", a.parentStateRoot, a.corpusRoot, Some(a.key))
  }

  function Incoming(advances: seq<Advance>, cursor: int): (r: seq<Entry>)
    ensures |r| == |advances|
  {
    seq(|advances|, i requires 0 <= i < |advances| => EntryOf(advances[i], cursor))
  }

  function Staged(advances: seq<Advance>): map<Key, CortexState> {
    if advances == [] then map[]
    else Staged(advances[..|advances| - 1])[advances[|advances| - 1].key := advances[|advances| - 1].parentState]
  }

  /** A persisted snapshot is used only if it merkleizes to the entry's pinned root. */
  predicate SnapshotLoads(env: Env, files: map<Key, CortexState>, e: Entry) {
    e.parentSnapshotRef.Some? && e.parentSnapshotRef.value in files
    && env.merkle(files[e.parentSnapshotRef.value]) == e.parentStateRoot
  }

  predicate ParentAvailable(env: Env, files: map<Key, CortexState>, advances: seq<Advance>, e: Entry) {
    (exists i :: 0 <= i < |advances| && advances[i].parentStateRoot == e.parentStateRoot)
      || SnapshotLoads(env, files, e)
  }

  predicate Drains(env: Env, files: map<Key, CortexState>, p: SyncPass, e: Entry) {
    p.verdict(e) == ReplayPasses && ParentAvailable(env, files, p.advances, e)
  }

  predicate Aborts(env: Env, files: map<Key, CortexState>, p: SyncPass, e: Entry) {
    p.verdict(e) == ReplayFails && ParentAvailable(env, files, p.advances, e)
  }

  /** The replay loop over a copy of the backlog; None when a replay fails and the sync throws. */
  function Drain(env: Env, files: map<Key, CortexState>, p: SyncPass, backlog: seq<Entry>,
                 todo: seq<Entry>): Option<seq<Entry>>
    decreases |todo|
  {
    if todo == [] then Some(backlog)
    else
      var e := todo[0];
      if p.verdict(e) == ContextUnresolved then
        Drain(env, files, p, Upsert(env.keyBefore, backlog, [e.(reason := "epoch-context-unresolved")]), todo[1..])
      else if Aborts(env, files, p, e) then None
      else if Drains(env, files, p, e) then Drain(env, files, p, Remove(backlog, e.key), todo[1..])
      else Drain(env, files, p, backlog, todo[1..])
  }

  predicate AnyDrainable(env: Env, files: map<Key, CortexState>, p: SyncPass, backlog: seq<Entry>) {
    exists i :: 0 <= i < |backlog| && p.verdict(backlog[i]) != Unrevealed
      && ParentAvailable(env, files, p.advances, backlog[i])
  }

  function Replayed(env: Env, files: map<Key, CortexState>, p: SyncPass, backlog: seq<Entry>): Option<seq<Entry>> {
    if p.skipReplay || !AnyDrainable(env, files, p, backlog) then Some(backlog)
    else Drain(env, files, p, backlog, backlog)
  }

  /** GC keeps exactly the snapshots a surviving entry names. */
  function Collected(files: map<Key, CortexState>, backlog: seq<Entry>): map<Key, CortexState> {
    map k | k in files && Referenced(backlog, k) :: files[k]
  }

  predicate Referenced(backlog: seq<Entry>, k: Key) {
    exists i :: 0 <= i < |backlog| && backlog[i].parentSnapshotRef == Some(k)
  }

  function Window(env: Env, s: State, p: SyncPass): seq<Entry> {
    Upsert(env.keyBefore, s.backlog, Incoming(p.advances, p.newCursor))
  }

  /** No replay threw and the bundle version matches; otherwise nothing is written. */
  predicate Commits(env: Env, s: State, p: SyncPass) {
    Replayed(env, s.files, p, Window(env, s, p)).Some? && p.versionMatch
  }

  /** A pass either commits everything or leaves the trusted state as it was. */
  function Sync(env: Env, s: State, p: SyncPass): State {
    if !Commits(env, s, p) then s
    else
      var replayed := Replayed(env, s.files, p, Window(env, s, p));
      var through := if replayed.value == [] && !p.skipReplay && p.newCursor > s.verifiedThrough
                     then p.newCursor else s.verifiedThrough;
      State(replayed.value, through, p.newCursor, Collected(s.files + Staged(p.advances), replayed.value))
  }

  // ── what is owed ─────────────────────────────────────────────────────────────

  /** An accepted advance whose replay has not passed: where it was first seen, and its block. */
  datatype Debt = Debt(firstSeen: int, block: int, parentStateRoot: Hash, corpusRoot: Hash)

  function DebtOf(a: Advance, cursor: int): Debt {
    Debt(cursor, a.block, a.parentStateRoot, a.corpusRoot)
  }

  function WithWindow(owed: map<Key, Debt>, advances: seq<Advance>, cursor: int): map<Key, Debt>
    decreases |advances|
  {
    if advances == [] then owed
    else
      var a := advances[0];
      var more := if a.key in owed then owed else owed[a.key := DebtOf(a, cursor)];
      WithWindow(more, advances[1..], cursor)
  }

  /** The keys whose replay passed in this pass. */
  ghost function PassedKeys(env: Env, files: map<Key, CortexState>, p: SyncPass, todo: seq<Entry>): set<Key> {
    set i | 0 <= i < |todo| && Drains(env, files, p, todo[i]) :: todo[i].key
  }

  ghost predicate Records(e: Entry, d: Debt, k: Key) {
    e.key == k && e.advanceBlock == d.firstSeen && e.parentStateRoot == d.parentStateRoot
      && e.corpusRoot == d.corpusRoot && e.parentSnapshotRef == Some(k)
  }

  /** One entry per debt, with its first-seen block, and nothing else. */
  ghost predicate Owes(m: map<Key, Entry>, owed: map<Key, Debt>) {
    m.Keys == owed.Keys && forall k :: k in owed ==> Records(m[k], owed[k], k)
  }

  /** The books over a run: what is owed, the keys whose replay has ever passed, and the highest block
      a committed pass has synced through. */
  datatype Ledger = Ledger(owed: map<Key, Debt>, done: set<Key>, through: int)

  /** The trusted state carries the debts: one entry each, a snapshot that loads, and a verified
      block below every advance whose replay never passed. */
  ghost predicate Carries(env: Env, s: State, m: map<Key, Entry>, books: Ledger) {
    && Lists(s.backlog, m) && Owes(m, books.owed)
    && (forall k :: k in s.files <==> k in books.owed)
    && (forall k :: k in books.owed ==> env.merkle(s.files[k]) == books.owed[k].parentStateRoot)
    && (forall k :: k in books.owed && k !in books.done ==> books.owed[k].block > s.verifiedThrough)
    && s.verifiedThrough <= books.through
  }

  predicate SameAdvance(a: Advance, d: Debt) {
    a.parentStateRoot == d.parentStateRoot && a.corpusRoot == d.corpusRoot
  }

  /** What the canonical replay has established about the window, wherever it starts: an advance in it
      is owed, or has passed before, or lies above everything synced so far. */
  ghost predicate ReplayedWindow(env: Env, books: Ledger, p: SyncPass) {
    && (forall i, j :: 0 <= i < j < |p.advances| ==> p.advances[i].key != p.advances[j].key)
    && (forall i :: 0 <= i < |p.advances| ==>
          var a := p.advances[i];
          env.merkle(a.parentState) == a.parentStateRoot &&
          if a.key in books.owed then SameAdvance(a, books.owed[a.key])
          else a.key in books.done || books.through < a.block)
  }

  // ── the window ───────────────────────────────────────────────────────────────

  lemma {:induction false} WindowOwes(m: map<Key, Entry>, owed: map<Key, Debt>, advances: seq<Advance>, cursor: int)
    requires Owes(m, owed)
    requires forall i :: 0 <= i < |advances| && advances[i].key in owed ==>
               SameAdvance(advances[i], owed[advances[i].key])
    requires forall i, j :: 0 <= i < j < |advances| ==> advances[i].key != advances[j].key
    ensures Owes(MergedMap(m, Incoming(advances, cursor)), WithWindow(owed, advances, cursor))
    decreases |advances|
  {
    if advances != [] {
      var a := advances[0];
      var e := EntryOf(a, cursor);
      var m1 := m[a.key := Merged(if a.key in m then Some(m[a.key]) else None, e)];
      var owed1 := if a.key in owed then owed else owed[a.key := DebtOf(a, cursor)];
      assert Incoming(advances, cursor)[1..] == Incoming(advances[1..], cursor);
      assert m1.Keys == owed1.Keys;
      assert Owes(m1, owed1);
      WindowOwes(m1, owed1, advances[1..], cursor);
    }
  }

  lemma {:induction false} WindowDebts(owed: map<Key, Debt>, advances: seq<Advance>, cursor: int, k: Key)
    ensures k in owed ==> k in WithWindow(owed, advances, cursor) && WithWindow(owed, advances, cursor)[k] == owed[k]
    ensures k !in owed && k in WithWindow(owed, advances, cursor) ==>
              exists i :: 0 <= i < |advances| && advances[i].key == k &&
                WithWindow(owed, advances, cursor)[k] == DebtOf(advances[i], cursor)
    decreases |advances|
  {
    if advances != [] {
      var a := advances[0];
      var owed1 := if a.key in owed then owed else owed[a.key := DebtOf(a, cursor)];
      WindowDebts(owed1, advances[1..], cursor, k);
      if k !in owed && k in WithWindow(owed, advances, cursor) {
        if k == a.key {
          assert advances[0].key == k;
        } else {
          var i :| 0 <= i < |advances[1..]| && advances[1..][i].key == k &&
                   WithWindow(owed1, advances[1..], cursor)[k] ==
                     DebtOf(advances[1..][i], cursor);
          assert advances[i + 1] == advances[1..][i];
        }
      }
    }
  }

  lemma {:induction false} StagedFile(advances: seq<Advance>, i: nat)
    requires i < |advances| && forall a, b :: 0 <= a < b < |advances| ==> advances[a].key != advances[b].key
    ensures advances[i].key in Staged(advances) && Staged(advances)[advances[i].key] == advances[i].parentState
  {
    if i < |advances| - 1 {
      StagedFile(advances[..|advances| - 1], i);
    }
  }

  lemma {:induction false} StagedKeys(advances: seq<Advance>, k: Key)
    requires k in Staged(advances)
    ensures exists i :: 0 <= i < |advances| && advances[i].key == k
  {
    if advances[|advances| - 1].key != k {
      StagedKeys(advances[..|advances| - 1], k);
      var i :| 0 <= i < |advances| - 1 && advances[..|advances| - 1][i].key == k;
      assert advances[i].key == k;
    }
  }

  // ── the replay loop ──────────────────────────────────────────────────────────

  /** Entries of `m` that survive a drain, up to their reason. */
  ghost predicate Survives(m: map<Key, Entry>, after: map<Key, Entry>, passed: set<Key>) {
    after.Keys == m.Keys - passed && forall k :: k in after ==> after[k] == m[k].(reason := after[k].reason)
  }

  /** The backlog after one entry of the loop. */
  function Handled(env: Env, files: map<Key, CortexState>, p: SyncPass, backlog: seq<Entry>, e: Entry): seq<Entry> {
    if p.verdict(e) == ContextUnresolved then Upsert(env.keyBefore, backlog, [e.(reason := "epoch-context-unresolved")])
    else if Drains(env, files, p, e) then Remove(backlog, e.key)
    else backlog
  }

  lemma RefreshLists(env: Env, backlog: seq<Entry>, m: map<Key, Entry>, e: Entry, reason: string)
    requires Lists(backlog, m) && e.key in m && m[e.key] == e
    ensures Lists(Upsert(env.keyBefore, backlog, [e.(reason := reason)]), m[e.key := e.(reason := reason)])
  {
    var refreshed := e.(reason := reason);
    UpsertLists(env.keyBefore, backlog, m, [refreshed]);
    assert [refreshed][1..] == [];
    assert Merged(Some(e), refreshed) == refreshed;
    assert MergedMap(m[e.key := refreshed], []) == m[e.key := refreshed];
  }

  lemma HandledLists(env: Env, files: map<Key, CortexState>, p: SyncPass, backlog: seq<Entry>, m: map<Key, Entry>,
                     e: Entry)
    returns (after: map<Key, Entry>)
    requires Lists(backlog, m) && e.key in m && m[e.key] == e
    ensures Lists(Handled(env, files, p, backlog, e), after)
    ensures Survives(m, after, if Drains(env, files, p, e) then {e.key} else {})
    ensures forall k :: k in m && k != e.key ==> k in after && after[k] == m[k]
  {
    if p.verdict(e) == ContextUnresolved {
      after := m[e.key := e.(reason := "epoch-context-unresolved")];
      RefreshLists(env, backlog, m, e, "epoch-context-unresolved");
    } else if Drains(env, files, p, e) {
      after := m - {e.key};
      RemoveLists(backlog, m, e.key);
    } else {
      after := m;
    }
  }

  lemma SurvivesChains(m: map<Key, Entry>, m1: map<Key, Entry>, m2: map<Key, Entry>, a: set<Key>, b: set<Key>)
    requires Survives(m, m1, a) && Survives(m1, m2, b)
    ensures Survives(m, m2, a + b)
  {
  }

  lemma {:induction false} DrainLists(env: Env, files: map<Key, CortexState>, p: SyncPass,
                                      backlog: seq<Entry>, m: map<Key, Entry>, todo: seq<Entry>)
    returns (after: map<Key, Entry>)
    requires Lists(backlog, m) && Unique(todo)
    requires forall i :: 0 <= i < |todo| ==> todo[i].key in m && m[todo[i].key] == todo[i]
    requires Drain(env, files, p, backlog, todo).Some?
    ensures Lists(Drain(env, files, p, backlog, todo).value, after)
    ensures Survives(m, after, PassedKeys(env, files, p, todo))
    decreases |todo|
  {
    if todo == [] {
      after := m;
    } else {
      var m1 := HandledLists(env, files, p, backlog, m, todo[0]);
      var backlog1 := Handled(env, files, p, backlog, todo[0]);
      assert Drain(env, files, p, backlog, todo) == Drain(env, files, p, backlog1, todo[1..]);
      after := DrainLists(env, files, p, backlog1, m1, todo[1..]);
      PassedStep(env, files, p, todo);
      var first := if Drains(env, files, p, todo[0]) then {todo[0].key} else {};
      SurvivesChains(m, m1, after, first, PassedKeys(env, files, p, todo[1..]));
    }
  }

  lemma PassedStep(env: Env, files: map<Key, CortexState>, p: SyncPass, todo: seq<Entry>)
    requires todo != []
    ensures PassedKeys(env, files, p, todo) ==
            (if Drains(env, files, p, todo[0]) then {todo[0].key} else {}) + PassedKeys(env, files, p, todo[1..])
  {
    var all, rest := PassedKeys(env, files, p, todo), PassedKeys(env, files, p, todo[1..]);
    forall k | k in rest
      ensures k in all
    {
      var i :| 0 <= i < |todo[1..]| && Drains(env, files, p, todo[1..][i]) && todo[1..][i].key == k;
      assert todo[i + 1] == todo[1..][i];
    }
    forall k | k in all
      ensures k in rest || (Drains(env, files, p, todo[0]) && k == todo[0].key)
    {
      var i :| 0 <= i < |todo| && Drains(env, files, p, todo[i]) && todo[i].key == k;
      if i > 0 {
        assert todo[1..][i - 1] == todo[i];
      }
    }
  }

  /** The debts left by a pass: those of the window, minus the keys whose replay passed in it. */
  ghost function OwedAfter(env: Env, s: State, owed: map<Key, Debt>, p: SyncPass): map<Key, Debt> {
    var window := Window(env, s, p);
    if !Commits(env, s, p) then owed
    else if p.skipReplay || !AnyDrainable(env, s.files, p, window) then WithWindow(owed, p.advances, p.newCursor)
    else WithWindow(owed, p.advances, p.newCursor) - PassedKeys(env, s.files, p, window)
  }

  ghost function BooksAfter(env: Env, s: State, books: Ledger, p: SyncPass): Ledger {
    if !Commits(env, s, p) then books
    else
      var passed := if p.skipReplay then {} else PassedKeys(env, s.files, p, Window(env, s, p));
      Ledger(OwedAfter(env, s, books.owed, p), books.done + passed,
             if p.newCursor > books.through then p.newCursor else books.through)
  }

  lemma BacklogFollows(env: Env, s: State, m: map<Key, Entry>, owed: map<Key, Debt>, p: SyncPass)
    returns (after: map<Key, Entry>)
    requires Lists(s.backlog, m) && Owes(m, owed) && Commits(env, s, p)
    requires forall i, j :: 0 <= i < j < |p.advances| ==> p.advances[i].key != p.advances[j].key
    requires forall i :: 0 <= i < |p.advances| && p.advances[i].key in owed ==>
               SameAdvance(p.advances[i], owed[p.advances[i].key])
    ensures Lists(Sync(env, s, p).backlog, after) && Owes(after, OwedAfter(env, s, owed, p))
  {
    var incoming := Incoming(p.advances, p.newCursor);
    var window, windowMap := Window(env, s, p), MergedMap(m, incoming);
    UpsertLists(env.keyBefore, s.backlog, m, incoming);
    WindowOwes(m, owed, p.advances, p.newCursor);
    if p.skipReplay || !AnyDrainable(env, s.files, p, window) {
      after := windowMap;
    } else {
      ListedEntries(window, windowMap);
      after := DrainLists(env, s.files, p, window, windowMap, window);
    }
  }

  lemma ListedEntries(list: seq<Entry>, m: map<Key, Entry>)
    requires Lists(list, m)
    ensures forall i :: 0 <= i < |list| ==> list[i].key in m && m[list[i].key] == list[i]
  {
    assert forall i :: 0 <= i < |list| ==> list[i] in list;
  }

  /** The files on disk just before GC hold every owed advance's parent state. */
  lemma StagedFollow(env: Env, s: State, m: map<Key, Entry>, books: Ledger, p: SyncPass, k: Key)
    requires Carries(env, s, m, books) && ReplayedWindow(env, books, p)
    requires k in WithWindow(books.owed, p.advances, p.newCursor)
    ensures var disk, d := s.files + Staged(p.advances), WithWindow(books.owed, p.advances, p.newCursor)[k];
            k in disk && env.merkle(disk[k]) == d.parentStateRoot && (k in books.done || d.block > s.verifiedThrough)
  {
    WindowDebts(books.owed, p.advances, p.newCursor, k);
    if k in books.owed {
      if k in Staged(p.advances) {
        StagedKeys(p.advances, k);
        var i :| 0 <= i < |p.advances| && p.advances[i].key == k;
        StagedFile(p.advances, i);
      }
    } else {
      var i :| 0 <= i < |p.advances| && p.advances[i].key == k &&
               WithWindow(books.owed, p.advances, p.newCursor)[k] ==
                 DebtOf(p.advances[i], p.newCursor);
      StagedFile(p.advances, i);
    }
  }

  /** GC never removes the snapshot of a surviving entry. */
  lemma GcKeepsLive(files: map<Key, CortexState>, backlog: seq<Entry>, after: map<Key, Entry>, owed: map<Key, Debt>,
                    k: Key)
    requires Lists(backlog, after) && Owes(after, owed) && k in owed && k in files
    ensures k in Collected(files, backlog) && Collected(files, backlog)[k] == files[k]
  {
    assert Records(after[k], owed[k], k);
    assert after[k] in backlog;
    var at :| 0 <= at < |backlog| && backlog[at] == after[k];
    assert Referenced(backlog, k);
  }

  /** Every pass, over any window, keeps the books: no accepted advance is lost or doubled, no live
      snapshot is collected, and the verified block stays below every advance that never passed. */
  lemma SyncCarries(env: Env, s: State, m: map<Key, Entry>, books: Ledger, p: SyncPass) returns (after: map<Key, Entry>)
    requires Carries(env, s, m, books) && ReplayedWindow(env, books, p)
    ensures Carries(env, Sync(env, s, p), after, BooksAfter(env, s, books, p))
  {
    after := m;
    if Commits(env, s, p) {
      var owed := OwedAfter(env, s, books.owed, p);
      after := BacklogFollows(env, s, m, books.owed, p);
      forall k | k in owed
        ensures k in Sync(env, s, p).files && env.merkle(Sync(env, s, p).files[k]) == owed[k].parentStateRoot
        ensures k in books.done || owed[k].block > s.verifiedThrough
      {
        StagedFollow(env, s, m, books, p, k);
        GcKeepsLive(s.files + Staged(p.advances), Sync(env, s, p).backlog, after, owed, k);
        assert after[k] in Sync(env, s, p).backlog;
      }
      forall k | k in Sync(env, s, p).files
        ensures k in owed
      {
        OnlyLiveFiles(s.files + Staged(p.advances), Sync(env, s, p).backlog, after, owed, k);
      }
    }
  }

  /** And collects every other one. */
  lemma OnlyLiveFiles(files: map<Key, CortexState>, backlog: seq<Entry>, after: map<Key, Entry>, owed: map<Key, Debt>,
                      k: Key)
    requires Lists(backlog, after) && Owes(after, owed) && k in Collected(files, backlog)
    ensures k in owed
  {
    var i :| 0 <= i < |backlog| && backlog[i].parentSnapshotRef == Some(k);
    assert backlog[i] in backlog;
    assert Records(after[backlog[i].key], owed[backlog[i].key], backlog[i].key);
  }

  // ── runs of syncs ────────────────────────────────────────────────────────────

  function RunSyncs(env: Env, s: State, ps: seq<SyncPass>): State {
    if ps == [] then s else Sync(env, RunSyncs(env, s, ps[..|ps| - 1]), ps[|ps| - 1])
  }

  ghost function BooksAfterAll(env: Env, s: State, books: Ledger, ps: seq<SyncPass>): Ledger {
    if ps == [] then books
    else
      var n := |ps| - 1;
      BooksAfter(env, RunSyncs(env, s, ps[..n]), BooksAfterAll(env, s, books, ps[..n]), ps[n])
  }

  ghost predicate ReplayedRun(env: Env, s: State, books: Ledger, ps: seq<SyncPass>) {
    ps != [] ==>
      var n := |ps| - 1;
      ReplayedRun(env, s, books, ps[..n]) && ReplayedWindow(env, BooksAfterAll(env, s, books, ps[..n]), ps[n])
  }

  /** Over any run of syncs the trusted state carries exactly the advances that are owed. */
  lemma {:induction false} RunCarries(env: Env, s: State, m: map<Key, Entry>, books: Ledger, ps: seq<SyncPass>)
    returns (after: map<Key, Entry>)
    requires Carries(env, s, m, books) && ReplayedRun(env, s, books, ps)
    ensures Carries(env, RunSyncs(env, s, ps), after, BooksAfterAll(env, s, books, ps))
  {
    if ps == [] {
      after := m;
    } else {
      var n := |ps| - 1;
      after := RunCarries(env, s, m, books, ps[..n]);
      after := SyncCarries(env, RunSyncs(env, s, ps[..n]), after, BooksAfterAll(env, s, books, ps[..n]), ps[n]);
    }
  }

  const EMPTY := State([], -1, -1, map[])
  const NO_BOOKS := Ledger(map[], {}, -1)

  lemma CarriedEntry(env: Env, s: State, m: map<Key, Entry>, books: Ledger, k: Key)
    requires Carries(env, s, m, books)
    ensures k in books.owed <==> exists i :: 0 <= i < |s.backlog| && s.backlog[i].key == k
    ensures forall i :: 0 <= i < |s.backlog| && s.backlog[i].key == k ==>
              k in books.owed && s.backlog[i].advanceBlock == books.owed[k].firstSeen
                && s.backlog[i].corpusRoot == books.owed[k].corpusRoot && SnapshotLoads(env, s.files, s.backlog[i])
  {
    if k in books.owed {
      assert Records(m[k], books.owed[k], k);
      assert m[k] in s.backlog;
      var at :| 0 <= at < |s.backlog| && s.backlog[at] == m[k];
      assert s.backlog[at].key == k;
    }
    forall i | 0 <= i < |s.backlog| && s.backlog[i].key == k
      ensures k in books.owed && s.backlog[i].advanceBlock == books.owed[k].firstSeen
              && s.backlog[i].corpusRoot == books.owed[k].corpusRoot && SnapshotLoads(env, s.files, s.backlog[i])
    {
      assert s.backlog[i] in s.backlog;
      assert Records(m[k], books.owed[k], k);
    }
  }

  /** From an empty validator, after any run of syncs, windows that go back over drained advances
      included: an accepted advance that is owed has exactly one entry, with its first-seen block, and
      its snapshot loads and verifies; what is not owed has no entry; and no advance whose replay never
      passed lies at or below the verified block. */
  lemma NoAdvanceIsLost(env: Env, ps: seq<SyncPass>, k: Key)
    requires ReplayedRun(env, EMPTY, NO_BOOKS, ps)
    ensures var s, books := RunSyncs(env, EMPTY, ps), BooksAfterAll(env, EMPTY, NO_BOOKS, ps);
            && Unique(s.backlog)
            && (k in books.owed <==> exists i :: 0 <= i < |s.backlog| && s.backlog[i].key == k)
            && (forall i :: 0 <= i < |s.backlog| && s.backlog[i].key == k ==>
                  k in books.owed && s.backlog[i].advanceBlock == books.owed[k].firstSeen
                    && s.backlog[i].corpusRoot == books.owed[k].corpusRoot
                    && SnapshotLoads(env, s.files, s.backlog[i]))
            && (k in s.files <==> k in books.owed)
            && (k in books.owed && k !in books.done ==> books.owed[k].block > s.verifiedThrough)
  {
    var m := RunCarries(env, EMPTY, map[], NO_BOOKS, ps);
    CarriedEntry(env, RunSyncs(env, EMPTY, ps), m, BooksAfterAll(env, EMPTY, NO_BOOKS, ps), k);
  }

  lemma ListedKey(list: seq<Entry>, m: map<Key, Entry>, k: Key)
    requires Lists(list, m)
    ensures k in m <==> exists j :: 0 <= j < |list| && list[j].key == k
  {
    if k in m {
      assert m[k] in list;
      var j :| 0 <= j < |list| && list[j] == m[k];
    }
    forall j | 0 <= j < |list| && list[j].key == k
      ensures k in m
    {
      assert list[j] in list;
    }
  }

  lemma PassedIsDrained(env: Env, files: map<Key, CortexState>, p: SyncPass, window: seq<Entry>, i: nat)
    requires Unique(window) && i < |window|
    ensures window[i].key in PassedKeys(env, files, p, window) <==> Drains(env, files, p, window[i])
  {
  }

  lemma WindowDrains(env: Env, s: State, m: map<Key, Entry>, p: SyncPass)
    returns (windowMap: map<Key, Entry>, after: map<Key, Entry>)
    requires Lists(s.backlog, m) && Commits(env, s, p)
    ensures Lists(Window(env, s, p), windowMap) && Lists(Sync(env, s, p).backlog, after)
    ensures after.Keys == windowMap.Keys - if p.skipReplay then {} else PassedKeys(env, s.files, p, Window(env, s, p))
  {
    var window := Window(env, s, p);
    windowMap := MergedMap(m, Incoming(p.advances, p.newCursor));
    UpsertLists(env.keyBefore, s.backlog, m, Incoming(p.advances, p.newCursor));
    if p.skipReplay || !AnyDrainable(env, s.files, p, window) {
      after := windowMap;
    } else {
      ListedEntries(window, windowMap);
      after := DrainLists(env, s.files, p, window, windowMap, window);
    }
  }

  /** An entry of a committed pass' window is gone from the backlog after the pass exactly when the pass
      replayed it successfully, from its verified parent state. */
  lemma EntryLeavesIffReplayed(env: Env, s: State, m: map<Key, Entry>, p: SyncPass, i: nat)
    requires Lists(s.backlog, m) && Commits(env, s, p) && i < |Window(env, s, p)|
    ensures (forall j :: 0 <= j < |Sync(env, s, p).backlog| ==>
               Sync(env, s, p).backlog[j].key != Window(env, s, p)[i].key)
            <==> !p.skipReplay && Drains(env, s.files, p, Window(env, s, p)[i])
  {
    var windowMap, after := WindowDrains(env, s, m, p);
    var k := Window(env, s, p)[i].key;
    ListedKey(Window(env, s, p), windowMap, k);
    ListedKey(Sync(env, s, p).backlog, after, k);
    PassedIsDrained(env, s.files, p, Window(env, s, p), i);
  }

  // ── when a pass commits, and what it then writes ─────────────────────────────

  lemma {:induction false} DrainCompletes(env: Env, files: map<Key, CortexState>, p: SyncPass, backlog: seq<Entry>,
                                          todo: seq<Entry>)
    ensures Drain(env, files, p, backlog, todo).Some?
            <==> forall i :: 0 <= i < |todo| ==> !Aborts(env, files, p, todo[i])
    decreases |todo|
  {
    if todo != [] {
      var left := Handled(env, files, p, backlog, todo[0]);
      DrainCompletes(env, files, p, left, todo[1..]);
      assert forall i :: 0 < i < |todo| ==> todo[i] == todo[1..][i - 1];
      if !Aborts(env, files, p, todo[0]) {
        assert Drain(env, files, p, backlog, todo) == Drain(env, files, p, left, todo[1..]);
      }
    }
  }

  /** A pass commits exactly when the bundle version matches and no replay it makes fails: the replay of an
      entry whose parent state is at hand. */
  lemma CommitsIff(env: Env, s: State, p: SyncPass)
    ensures var window := Window(env, s, p);
            Commits(env, s, p) <==>
            p.versionMatch && (p.skipReplay || forall i :: 0 <= i < |window| ==> !Aborts(env, s.files, p, window[i]))
  {
    DrainCompletes(env, s.files, p, Window(env, s, p), Window(env, s, p));
  }

  /** The cursor of a committed pass is its own, and the verified block moves up to it exactly when the pass
      replays and nothing is owed any more; any other pass changes nothing. */
  lemma VerifiedBlockMoves(env: Env, s: State, m: map<Key, Entry>, books: Ledger, p: SyncPass)
    requires Carries(env, s, m, books) && ReplayedWindow(env, books, p)
    ensures var t, owed := Sync(env, s, p), BooksAfter(env, s, books, p).owed;
            if !Commits(env, s, p) then t == s
            else
              && t.cursor == p.newCursor
              && t.verifiedThrough == if owed == map[] && !p.skipReplay
                && p.newCursor > s.verifiedThrough then p.newCursor
                                      else s.verifiedThrough
  {
    if Commits(env, s, p) {
      var after := SyncCarries(env, s, m, books, p);
      NothingOwed(Sync(env, s, p).backlog, after, BooksAfter(env, s, books, p).owed);
    }
  }

  lemma NothingOwed(backlog: seq<Entry>, m: map<Key, Entry>, owed: map<Key, Debt>)
    requires Lists(backlog, m) && Owes(m, owed)
    ensures backlog == [] <==> owed == map[]
  {
    assert forall k :: k in m ==> m[k] in backlog;
    if backlog != [] {
      assert backlog[0] in backlog;
      assert backlog[0].key in owed;
    }
  }

  /** What is replayed is replayed from a state with the entry's parent root. */
  lemma ReplayedFromItsParent(env: Env, s: State, books: Ledger, p: SyncPass, e: Entry) returns (parent: CortexState)
    requires ReplayedWindow(env, books, p) && Drains(env, s.files, p, e)
    ensures env.merkle(parent) == e.parentStateRoot
    ensures parent in s.files.Values || exists i :: 0 <= i < |p.advances| && p.advances[i].parentState == parent
  {
    if SnapshotLoads(env, s.files, e) {
      parent := s.files[e.parentSnapshotRef.value];
    } else {
      var i :| 0 <= i < |p.advances| && p.advances[i].parentStateRoot == e.parentStateRoot;
      parent := p.advances[i].parentState;
    }
  }

  // ── order and reasons ────────────────────────────────────────────────────────

  ghost predicate KeysOrdered(keyBefore: (Key, Key) -> bool) {
    && (forall a, b :: a != b ==> keyBefore(a, b) || keyBefore(b, a))
    && (forall a, b :: keyBefore(a, b) ==> !keyBefore(b, a))
    && (forall a, b, c :: keyBefore(a, b) && keyBefore(b, c) ==> keyBefore(a, c))
  }

  ghost predicate InOrder(keyBefore: (Key, Key) -> bool, list: seq<Entry>) {
    forall i, j :: 0 <= i < j < |list| ==> Before(keyBefore, list[i], list[j])
  }

  lemma {:induction false} InsertInOrder(keyBefore: (Key, Key) -> bool, e: Entry, sorted: seq<Entry>)
    requires KeysOrdered(keyBefore) && InOrder(keyBefore, sorted) && forall x :: x in sorted ==> x.key != e.key
    ensures InOrder(keyBefore, Insert(keyBefore, e, sorted))
  {
    if sorted != [] {
      assert sorted[0] in sorted;
      if Before(keyBefore, sorted[0], e) {
        var rest := Insert(keyBefore, e, sorted[1..]);
        assert forall x :: x in sorted[1..] ==> x in sorted;
        InsertInOrder(keyBefore, e, sorted[1..]);
        forall j | 0 <= j < |rest|
          ensures Before(keyBefore, sorted[0], rest[j])
        {
          assert rest[j] in rest;
          if rest[j] != e {
            var i :| 0 <= i < |sorted[1..]| && sorted[1..][i] == rest[j];
            assert sorted[i + 1] == rest[j];
          }
        }
      } else {
        forall i | 0 <= i < |sorted|
          ensures Before(keyBefore, e, sorted[i])
        {
          assert sorted[i] in sorted;
        }
      }
    }
  }

  lemma {:induction false} SortedInOrder(keyBefore: (Key, Key) -> bool, list: seq<Entry>)
    requires KeysOrdered(keyBefore) && Unique(list)
    ensures InOrder(keyBefore, Sorted(keyBefore, list))
  {
    if list != [] {
      SortedInOrder(keyBefore, list[1..]);
      forall x | x in Sorted(keyBefore, list[1..])
        ensures x.key != list[0].key
      {
        var j :| 0 <= j < |list[1..]| && list[1..][j] == x;
        assert list[j + 1] == x;
      }
      InsertInOrder(keyBefore, list[0], Sorted(keyBefore, list[1..]));
    }
  }

  /** An upserted backlog is in the order of first-seen block and key. */
  lemma UpsertInOrder(keyBefore: (Key, Key) -> bool, existing: seq<Entry>, m: map<Key, Entry>, incoming: seq<Entry>)
    requires KeysOrdered(keyBefore) && Lists(existing, m)
    ensures InOrder(keyBefore, Upsert(keyBefore, existing, incoming))
  {
    assert [] + existing == existing;
    SetAllRebuilds([], existing);
    MergeAllLists(existing, m, incoming);
    SortedInOrder(keyBefore, MergeAll(existing, incoming));
  }

  lemma {:induction false} RemoveInOrder(keyBefore: (Key, Key) -> bool, list: seq<Entry>, k: Key)
    requires InOrder(keyBefore, list)
    ensures InOrder(keyBefore, Remove(list, k))
  {
    if list != [] {
      var rest := Remove(list[1..], k);
      RemoveInOrder(keyBefore, list[1..], k);
      forall j | 0 <= j < |rest|
        ensures Before(keyBefore, list[0], rest[j])
      {
        assert rest[j] in rest;
        var i :| 0 <= i < |list[1..]| && list[1..][i] == rest[j];
        assert list[i + 1] == rest[j];
      }
    }
  }

  lemma {:induction false} DrainInOrder(env: Env, files: map<Key, CortexState>, p: SyncPass, backlog: seq<Entry>,
                                        m: map<Key, Entry>, todo: seq<Entry>)
    requires KeysOrdered(env.keyBefore) && InOrder(env.keyBefore, backlog) && Lists(backlog, m) && Unique(todo)
    requires forall i :: 0 <= i < |todo| ==> todo[i].key in m && m[todo[i].key] == todo[i]
    requires Drain(env, files, p, backlog, todo).Some?
    ensures InOrder(env.keyBefore, Drain(env, files, p, backlog, todo).value)
    decreases |todo|
  {
    if todo != [] {
      var e, left := todo[0], Handled(env, files, p, backlog, todo[0]);
      var m1 := HandledLists(env, files, p, backlog, m, e);
      if p.verdict(e) == ContextUnresolved {
        UpsertInOrder(env.keyBefore, backlog, m, [e.(reason := "epoch-context-unresolved")]);
      } else if Drains(env, files, p, e) {
        RemoveInOrder(env.keyBefore, backlog, e.key);
      }
      assert Drain(env, files, p, backlog, todo) == Drain(env, files, p, left, todo[1..]);
      DrainInOrder(env, files, p, left, m1, todo[1..]);
    }
  }

  /** Every committed backlog is in order. */
  lemma SyncInOrder(env: Env, s: State, m: map<Key, Entry>, p: SyncPass)
    requires KeysOrdered(env.keyBefore) && Lists(s.backlog, m) && Commits(env, s, p)
    ensures InOrder(env.keyBefore, Sync(env, s, p).backlog)
  {
    var window, incoming := Window(env, s, p), Incoming(p.advances, p.newCursor);
    UpsertInOrder(env.keyBefore, s.backlog, m, incoming);
    if !p.skipReplay && AnyDrainable(env, s.files, p, window) {
      UpsertLists(env.keyBefore, s.backlog, m, incoming);
      ListedEntries(window, MergedMap(m, incoming));
      DrainInOrder(env, s.files, p, window, MergedMap(m, incoming), window);
    }
  }

  /** The reason an entry of the window has after the replay loop. */
  function ReasonAfter(p: SyncPass, e: Entry): string {
    if p.verdict(e) == ContextUnresolved then "epoch-context-unresolved" else e.reason
  }

  ghost predicate Absent(todo: seq<Entry>, k: Key) {
    forall i :: 0 <= i < |todo| ==> todo[i].key != k
  }

  ghost predicate KeptAs(after: map<Key, Entry>, p: SyncPass, e: Entry) {
    e.key in after && after[e.key] == e.(reason := ReasonAfter(p, e))
  }

  lemma {:induction false} DrainReasons(env: Env, files: map<Key, CortexState>, p: SyncPass, backlog: seq<Entry>,
                                        m: map<Key, Entry>, todo: seq<Entry>)
    returns (after: map<Key, Entry>)
    requires Lists(backlog, m) && Unique(todo)
    requires forall i :: 0 <= i < |todo| ==> todo[i].key in m && m[todo[i].key] == todo[i]
    requires Drain(env, files, p, backlog, todo).Some?
    ensures Lists(Drain(env, files, p, backlog, todo).value, after)
    ensures forall i :: 0 <= i < |todo| && !Drains(env, files, p, todo[i]) ==> KeptAs(after, p, todo[i])
    ensures forall k :: k in m && Absent(todo, k) ==> k in after && after[k] == m[k]
    decreases |todo|
  {
    if todo == [] {
      after := m;
    } else {
      var e, left := todo[0], Handled(env, files, p, backlog, todo[0]);
      var m1 := HandledReason(env, files, p, backlog, m, e);
      assert forall i :: 0 < i < |todo| ==> todo[i] == todo[1..][i - 1];
      assert Drain(env, files, p, backlog, todo) == Drain(env, files, p, left, todo[1..]);
      after := DrainReasons(env, files, p, left, m1, todo[1..]);
      assert Absent(todo[1..], e.key);
    }
  }

  lemma HandledReason(env: Env, files: map<Key, CortexState>, p: SyncPass, backlog: seq<Entry>, m: map<Key, Entry>,
                      e: Entry)
    returns (after: map<Key, Entry>)
    requires Lists(backlog, m) && e.key in m && m[e.key] == e
    ensures Lists(Handled(env, files, p, backlog, e), after)
    ensures !Drains(env, files, p, e) ==> KeptAs(after, p, e)
    ensures forall k :: k in m && k != e.key ==> k in after && after[k] == m[k]
  {
    if p.verdict(e) == ContextUnresolved {
      after := m[e.key := e.(reason := "epoch-context-unresolved")];
      RefreshLists(env, backlog, m, e, "epoch-context-unresolved");
    } else if Drains(env, files, p, e) {
      after := m - {e.key};
      RemoveLists(backlog, m, e.key);
    } else {
      after := m;
    }
  }

  /** An entry of the window that a committed, replaying pass keeps is kept as it is, but for its reason: that
      its context could not be resolved, if it could not. */
  lemma KeptWithReason(env: Env, s: State, m: map<Key, Entry>, p: SyncPass, i: nat)
    requires Lists(s.backlog, m) && Commits(env, s, p) && i < |Window(env, s, p)|
    requires !p.skipReplay && AnyDrainable(env, s.files, p, Window(env, s, p))
    requires !Drains(env, s.files, p, Window(env, s, p)[i])
    ensures var e := Window(env, s, p)[i]; e.(reason := ReasonAfter(p, e)) in Sync(env, s, p).backlog
  {
    var window, incoming := Window(env, s, p), Incoming(p.advances, p.newCursor);
    UpsertLists(env.keyBefore, s.backlog, m, incoming);
    ListedEntries(window, MergedMap(m, incoming));
    var after := DrainReasons(env, s.files, p, window, MergedMap(m, incoming), window);
  }

  /** An advance of the window that has no entry yet enters it as pending its epoch's secret, at the pass'
      cursor, with its own snapshot; an older entry takes the new reason and keeps its block. */
  lemma ObservedInWindow(env: Env, s: State, m: map<Key, Entry>, p: SyncPass, i: nat)
    requires Lists(s.backlog, m) && i < |p.advances|
    requires forall a, b :: 0 <= a < b < |p.advances| ==> p.advances[a].key != p.advances[b].key
    ensures var a := p.advances[i];
            Entry(a.key, if a.key in m then m[a.key].advanceBlock else p.newCursor, "awaiting_epoch_secret_reveal",
                  a.parentStateRoot, a.corpusRoot, Some(a.key)) in Window(env, s, p)
  {
    var incoming := Incoming(p.advances, p.newCursor);
    UpsertLists(env.keyBefore, s.backlog, m, incoming);
    MergedAt(m, incoming, i);
    var e := MergedMap(m, incoming)[p.advances[i].key];
    assert e in Window(env, s, p);
  }

  lemma {:induction false} MergedAt(m: map<Key, Entry>, incoming: seq<Entry>, i: nat)
    requires i < |incoming| && forall a, b :: 0 <= a < b < |incoming| ==> incoming[a].key != incoming[b].key
    ensures incoming[i].key in MergedMap(m, incoming)
    ensures MergedMap(m, incoming)[incoming[i].key]
            == Merged(if incoming[i].key in m then Some(m[incoming[i].key]) else None, incoming[i])
    decreases |incoming|
  {
    var e := incoming[0];
    var m1 := m[e.key := Merged(if e.key in m then Some(m[e.key]) else None, e)];
    if i > 0 {
      MergedAt(m1, incoming[1..], i - 1);
    } else {
      MergedElsewhere(m1, incoming[1..], e.key);
    }
  }

  lemma {:induction false} MergedElsewhere(m: map<Key, Entry>, incoming: seq<Entry>, k: Key)
    requires k in m && forall i :: 0 <= i < |incoming| ==> incoming[i].key != k
    ensures k in MergedMap(m, incoming) && MergedMap(m, incoming)[k] == m[k]
    decreases |incoming|
  {
    if incoming != [] {
      var e := incoming[0];
      MergedElsewhere(m[e.key := Merged(if e.key in m then Some(m[e.key]) else None, e)], incoming[1..], k);
    }
  }

  // ── loops ────────────────────────────────────────────────────────────────────

  /** The backlog loop of runSync: entries are removed only after a passing replay. */
  method DrainBacklog(env: Env, files: map<Key, CortexState>, p: SyncPass, backlog: seq<Entry>)
    returns (r: Option<seq<Entry>>)
    ensures r == Drain(env, files, p, backlog, backlog)
  {
    var left := backlog;
    for i := 0 to |backlog|
      invariant Drain(env, files, p, backlog, backlog) == Drain(env, files, p, left, backlog[i..])
    {
      var e := backlog[i];
      assert backlog[i..][1..] == backlog[i + 1..];
      if p.verdict(e) == ContextUnresolved {
        left := UpsertEvalBacklog(env.keyBefore, left, [e.(reason := "epoch-context-unresolved")]);
      } else if p.verdict(e) != Unrevealed && ParentAvailable(env, files, p.advances, e) {
        if p.verdict(e) == ReplayFails {
          return None;
        }
        left := Remove(left, e.key);
      }
    }
    return Some(left);
  }
}
