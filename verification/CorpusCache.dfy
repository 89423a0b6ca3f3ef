/** The validator's bounded cache of materialized corpora. */
module CorpusCache {
  import opened Wrappers
  import CorpusDelta

  type Root = CorpusDelta.Hash
  type Corpus = CorpusDelta.Corpus

  datatype Entry = Entry(key: Root, corpus: Corpus)

  // ── recency ──────────────────────────────────────────────────────────────────

  function Dropped(entries: seq<Entry>, key: Root): (r: seq<Entry>)
    ensures forall e :: e in r <==> e in entries && e.key != key
  {
    if entries == [] then []
    else
      assert entries == [entries[0]] + entries[1..];
      if entries[0].key == key then Dropped(entries[1..], key)
      else [entries[0]] + Dropped(entries[1..], key)
  }

  /** The distinct keys of a log of touches, by last touch, each with the corpus of that touch. */
  function Recent(log: seq<Entry>): seq<Entry> {
    if log == [] then []
    else
      var last := log[|log| - 1];
      Dropped(Recent(log[..|log| - 1]), last.key) + [last]
  }

  /** The last `n` entries. */
  function Newest(entries: seq<Entry>, n: int): seq<Entry> {
    if n <= 0 then [] else if |entries| <= n then entries else entries[|entries| - n..]
  }

  ghost predicate DistinctKeys(entries: seq<Entry>) {
    forall i, j :: 0 <= i < j < |entries| ==> entries[i].key != entries[j].key
  }

  function Find(entries: seq<Entry>, key: Root): Option<Corpus> {
    if entries == [] then None
    else if entries[0].key == key then Some(entries[0].corpus)
    else Find(entries[1..], key)
  }

  lemma FirstApart(entries: seq<Entry>)
    requires DistinctKeys(entries) && entries != []
    ensures DistinctKeys(entries[1..]) && forall e :: e in entries[1..] ==> e.key != entries[0].key
  {
    var rest := entries[1..];
    assert forall i :: 0 <= i < |rest| ==> rest[i] == entries[i + 1];
  }

  lemma {:induction false} DroppedNone(entries: seq<Entry>, key: Root)
    requires forall e :: e in entries ==> e.key != key
    ensures Dropped(entries, key) == entries
  {
    if entries != [] {
      assert entries[0] in entries;
      assert forall e :: e in entries[1..] ==> e in entries;
      DroppedNone(entries[1..], key);
    }
  }

  lemma PrependDistinct(e: Entry, rest: seq<Entry>)
    requires DistinctKeys(rest) && forall f :: f in rest ==> f.key != e.key
    ensures DistinctKeys([e] + rest)
  {
    assert forall i :: 0 <= i < |rest| ==> rest[i] in rest;
  }

  lemma {:induction false} DroppedDistinct(entries: seq<Entry>, key: Root)
    requires DistinctKeys(entries)
    ensures DistinctKeys(Dropped(entries, key))
    ensures |entries| - 1 <= |Dropped(entries, key)| <= |entries|
  {
    if entries != [] {
      FirstApart(entries);
      DroppedDistinct(entries[1..], key);
      if entries[0].key == key {
        DroppedNone(entries[1..], key);
      } else {
        PrependDistinct(entries[0], Dropped(entries[1..], key));
      }
    }
  }

  lemma AppendDistinct(rest: seq<Entry>, e: Entry)
    requires DistinctKeys(rest) && forall f :: f in rest ==> f.key != e.key
    ensures DistinctKeys(rest + [e])
  {
    assert forall i :: 0 <= i < |rest| ==> rest[i] in rest;
  }

  lemma {:induction false} RecentDistinct(log: seq<Entry>)
    ensures DistinctKeys(Recent(log))
  {
    if log != [] {
      var n := |log| - 1;
      RecentDistinct(log[..n]);
      DroppedDistinct(Recent(log[..n]), log[n].key);
      AppendDistinct(Dropped(Recent(log[..n]), log[n].key), log[n]);
    }
  }

  lemma {:induction false} DropSplit(a: seq<Entry>, b: seq<Entry>, key: Root)
    ensures Dropped(a + b, key) == Dropped(a, key) + Dropped(b, key)
  {
    if a == [] {
      assert a + b == b;
    } else {
      assert (a + b)[1..] == a[1..] + b;
      DropSplit(a[1..], b, key);
    }
  }

  lemma NewestOfTail(a: seq<Entry>, b: seq<Entry>, n: int)
    requires n <= |b|
    ensures Newest(a + b, n) == Newest(b, n)
  {
  }

  /** Dropping a key and appending it commutes with keeping the newest `n`, whether or not the key
      was among them. */
  lemma NewestTouched(entries: seq<Entry>, e: Entry, n: int)
    requires DistinctKeys(entries)
    ensures Newest(Dropped(Newest(entries, n), e.key) + [e], n) == Newest(Dropped(entries, e.key) + [e], n)
  {
    if 0 < n < |entries| {
      var cut := |entries| - n;
      var a, b := entries[..cut], entries[cut..];
      assert entries == a + b;
      DropSplit(a, b, e.key);
      DroppedDistinct(b, e.key);
      NewestOfTail(Dropped(a, e.key), Dropped(b, e.key) + [e], n);
      assert Dropped(a, e.key) + (Dropped(b, e.key) + [e]) == Dropped(entries, e.key) + [e];
    }
  }

  lemma RecentTouched(log: seq<Entry>, e: Entry, n: int)
    ensures Newest(Recent(log + [e]), n) == Newest(Dropped(Newest(Recent(log), n), e.key) + [e], n)
  {
    assert (log + [e])[..|log|] == log;
    RecentDistinct(log);
    NewestTouched(Recent(log), e, n);
  }

  // ── what is held ─────────────────────────────────────────────────────────────

  function KeysOf(entries: seq<Entry>): (r: set<Root>)
    ensures forall k :: k in r <==> exists i :: 0 <= i < |entries| && entries[i].key == k
  {
    set i | 0 <= i < |entries| :: entries[i].key
  }

  lemma {:induction false} KeysCount(entries: seq<Entry>)
    requires DistinctKeys(entries)
    ensures |KeysOf(entries)| == |entries|
  {
    if entries != [] {
      var rest := entries[1..];
      KeysCount(rest);
      assert forall i :: 0 < i < |entries| ==> entries[i] == rest[i - 1];
      assert KeysOf(entries) == KeysOf(rest) + {entries[0].key};
      assert entries[0].key !in KeysOf(rest);
    }
  }

  lemma KeysMore(entries: seq<Entry>, e: Entry)
    ensures KeysOf(entries + [e]) == KeysOf(entries) + {e.key}
  {
    var more := entries + [e];
    assert more[|entries|] == e;
    assert forall i :: 0 <= i < |entries| ==> more[i] == entries[i];
  }

  lemma KeysDropped(entries: seq<Entry>, key: Root)
    ensures KeysOf(Dropped(entries, key)) == KeysOf(entries) - {key}
  {
    var left := Dropped(entries, key);
    forall k | k in KeysOf(left)
      ensures k in KeysOf(entries) && k != key
    {
      var i :| 0 <= i < |left| && left[i].key == k;
      assert left[i] in entries;
    }
    forall k | k in KeysOf(entries) && k != key
      ensures k in KeysOf(left)
    {
      var i :| 0 <= i < |entries| && entries[i].key == k;
      assert entries[i] in left;
    }
  }

  ghost predicate LastTouch(log: seq<Entry>, i: int) {
    0 <= i < |log| && forall j :: i < j < |log| ==> log[j].key != log[i].key
  }

  lemma TouchBehind(x: seq<Entry>, e: Entry, y: seq<Entry>, last: Entry)
    requires e.key != last.key
    ensures Dropped(x + [e] + y, last.key) + [last] == Dropped(x, last.key) + [e] + (Dropped(y, last.key) + [last])
    ensures KeysOf(Dropped(y, last.key) + [last]) == KeysOf(y) + {last.key}
  {
    DropSplit(x + [e], y, last.key);
    DropSplit(x, [e], last.key);
    KeysDropped(y, last.key);
    KeysMore(Dropped(y, last.key), last);
  }

  lemma KeysSince(log: seq<Entry>, i: nat)
    requires i < |log| - 1
    ensures KeysOf(log[i + 1..]) == KeysOf(log[..|log| - 1][i + 1..]) + {log[|log| - 1].key}
  {
    var before := log[..|log| - 1][i + 1..];
    assert log[i + 1..] == before + [log[|log| - 1]];
    KeysMore(before, log[|log| - 1]);
  }

  /** In recency order, what stands behind a key's last touch are the keys touched since. */
  lemma {:induction false} BehindLastTouch(log: seq<Entry>, i: nat) returns (x: seq<Entry>, y: seq<Entry>)
    requires LastTouch(log, i)
    ensures Recent(log) == x + [log[i]] + y && KeysOf(y) == KeysOf(log[i + 1..])
    decreases |log|
  {
    var n := |log| - 1;
    var init, last := log[..n], log[n];
    if i == n {
      x, y := Dropped(Recent(init), last.key), [];
      assert log[i + 1..] == [];
    } else {
      x, y := BehindLastTouch(init, i);
      TouchBehind(x, log[i], y, last);
      KeysSince(log, i);
      x, y := Dropped(x, last.key), Dropped(y, last.key) + [last];
    }
  }

  lemma HeldByPosition(x: seq<Entry>, e: Entry, y: seq<Entry>, n: int)
    requires DistinctKeys(x + [e] + y)
    ensures e in Newest(x + [e] + y, n) <==> |y| < n
  {
    var all := x + [e] + y;
    var newest := Newest(all, n);
    assert all[|x|] == e;
    if |y| < n {
      assert newest[|x| - (|all| - |newest|)] == e;
    } else {
      forall j | 0 <= j < |newest|
        ensures newest[j] != e
      {
        assert newest[j] == all[|all| - n + j];
      }
    }
  }

  /** A key is held exactly when fewer than `n` distinct keys were touched after its last touch, and
      it is held with the corpus of that touch. */
  lemma HoldsMostRecent(log: seq<Entry>, i: nat, n: int)
    requires LastTouch(log, i)
    ensures log[i] in Newest(Recent(log), n) <==> |KeysOf(log[i + 1..])| < n
  {
    var x, y := BehindLastTouch(log, i);
    RecentDistinct(log);
    HeldByPosition(x, log[i], y, n);
    assert DistinctKeys(y) by {
      assert forall j :: 0 <= j < |y| ==> y[j] == Recent(log)[|x| + 1 + j];
    }
    KeysCount(y);
  }

  // ── the cache ────────────────────────────────────────────────────────────────

  const DEFAULT_LIMIT := 4

  lemma {:induction false} FindMember(entries: seq<Entry>, key: Root)
    requires DistinctKeys(entries)
    ensures Find(entries, key).Some? <==> key in KeysOf(entries)
    ensures Find(entries, key).Some? ==> |Dropped(entries, key)| == |entries| - 1
  {
    if entries != [] {
      var rest := entries[1..];
      FirstApart(entries);
      assert forall i :: 0 < i < |entries| ==> entries[i] == rest[i - 1];
      assert entries[0].key in KeysOf(entries);
      assert KeysOf(entries) == KeysOf(rest) + {entries[0].key};
      if entries[0].key == key {
        DroppedNone(rest, key);
      } else {
        FindMember(rest, key);
      }
    }
  }

  /** A hit is moved to the end; nothing has to go. */
  lemma Refreshed(log: seq<Entry>, limit: int, root: Root)
    requires Find(Newest(Recent(log), limit), root).Some?
    ensures var held := Newest(Recent(log), limit);
            var e := Entry(root, Find(held, root).value);
            Dropped(held, root) + [e] == Newest(Recent(log + [e]), limit)
  {
    var held := Newest(Recent(log), limit);
    RecentDistinct(log);
    FindMember(held, root);
    RecentTouched(log, Entry(root, Find(held, root).value), limit);
  }

  /** A Map keeps insertion order; deleting and setting a key moves it to the end. The log is every
      set and every hit, in order. */
  class MaterializedCorpusCache {
    var entries: seq<Entry>
    const limit: int
    ghost var log: seq<Entry>

    ghost predicate Valid()
      reads this
    {
      entries == Newest(Recent(log), limit)
    }

    constructor (limit: int := DEFAULT_LIMIT)
      ensures Valid() && log == [] && this.limit == limit
    {
      this.limit := limit;
      entries, log := [], [];
    }

    lemma Distinct()
      requires Valid()
      ensures DistinctKeys(entries)
    {
      RecentDistinct(log);
    }

    method Get(root: Root) returns (hit: Option<Corpus>)
      requires Valid()
      modifies this
      ensures Valid() && hit == Find(old(entries), root)
      ensures log == if hit.Some? then old(log) + [Entry(root, hit.value)] else old(log)
    {
      hit := Find(entries, root);
      if hit.Some? {
        Refreshed(log, limit, root);
        entries := Dropped(entries, root) + [Entry(root, hit.value)];
        log := log + [Entry(root, hit.value)];
      }
    }

    method Set(root: Root, corpus: Corpus)
      requires Valid()
      modifies this
      ensures Valid() && log == old(log) + [Entry(root, corpus)]
    {
      RecentTouched(log, Entry(root, corpus), limit);
      entries := Dropped(entries, root) + [Entry(root, corpus)];
      log := log + [Entry(root, corpus)];
      ghost var goal := Newest(entries, limit);
      while |entries| > limit
        invariant Newest(entries, limit) == goal && log == old(log) + [Entry(root, corpus)]
        decreases |entries|
      {
        if entries == [] {
          break;
        }
        NewestOfTail(entries[..1], entries[1..], limit);
        assert entries == entries[..1] + entries[1..];
        entries := entries[1..];
      }
    }

    method Has(root: Root) returns (held: bool)
      requires Valid()
      ensures held <==> root in KeysOf(entries)
    {
      Distinct();
      FindMember(entries, root);
      held := Find(entries, root).Some?;
    }
  }
}
