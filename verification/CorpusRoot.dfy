/** The corpus root: a binary-counter forest kept in a leaf cache and updated in place of a rebuild,
    against the plain zero-padded Merkle tree over the leaves sorted by id. */
module CorpusRoot {
  import opened Wrappers
  import CanonicalJson

  type Id = CanonicalJson.Text
  type Hash = int
  type Combine = (Hash, Hash) -> Hash

  datatype Leaf = Leaf(id: Id, hash: Hash)

  /** A perfect subtree; its children are never read. */
  datatype Node = Node(size: nat, root: Hash)

  const ZERO: Hash := 0

  function Pow2(k: nat): (r: nat)
    ensures r > 0
  {
    if k == 0 then 1 else 2 * Pow2(k - 1)
  }

  // ── the reference: one padded tree ───────────────────────────────────────────

  function Tree(h: Combine, height: nat, s: seq<Hash>): Hash
    requires |s| == Pow2(height)
  {
    if height == 0 then s[0]
    else
      var half := Pow2(height - 1);
      h(Tree(h, height - 1, s[..half]), Tree(h, height - 1, s[half..]))
  }

  function Zeros(n: nat): (r: seq<Hash>)
    ensures |r| == n && forall i :: 0 <= i < n ==> r[i] == ZERO
  {
    seq(n, i => ZERO)
  }

  /** The least height, from `k` up, whose tree has room for `n` leaves. */
  function HeightFor(n: nat, k: nat): (r: nat)
    requires k == 0 || Pow2(k - 1) < n
    ensures Pow2(r) >= n && (r == 0 || Pow2(r - 1) < n)
    decreases n - Pow2(k)
  {
    if Pow2(k) >= n then k else HeightFor(n, k + 1)
  }

  function PaddedRoot(h: Combine, s: seq<Hash>): Hash {
    if s == [] then ZERO
    else
      var height := HeightFor(|s|, 0);
      Tree(h, height, s + Zeros(Pow2(height) - |s|))
  }

  // ── the forest ───────────────────────────────────────────────────────────────

  ghost predicate Perfect(h: Combine, node: Node, k: nat, t: seq<Hash>) {
    |t| == Pow2(k) && node == Node(Pow2(k), Tree(h, k, t))
  }

  /** The forest's nodes are perfect subtrees of heights `ks`, strictly falling, that together cover
      `s` from left to right. */
  ghost predicate Covers(h: Combine, forest: seq<Node>, ks: seq<nat>, s: seq<Hash>)
    decreases |forest|
  {
    && |forest| == |ks|
    && if forest == [] then s == []
       else
         var n := |forest| - 1;
         var k := ks[n];
         && Pow2(k) <= |s|
         && Perfect(h, forest[n], k, s[|s| - Pow2(k)..])
         && (n > 0 ==> ks[n - 1] > k)
         && Covers(h, forest[..n], ks[..n], s[..|s| - Pow2(k)])
  }

  function Append(h: Combine, forest: seq<Node>, node: Node): seq<Node>
    decreases |forest|
  {
    if forest != [] && forest[|forest| - 1].size == node.size then
      var last := forest[|forest| - 1];
      Append(h, forest[..|forest| - 1], Node(last.size + node.size, h(last.root, node.root)))
    else forest + [node]
  }

  lemma {:induction false} Pow2Grows(j: nat, k: nat)
    requires j < k
    ensures 2 * Pow2(j) <= Pow2(k)
  {
    if j < k - 1 {
      Pow2Grows(j, k - 1);
    }
  }

  lemma SubtreesJoin(h: Combine, k: nat, u: seq<Hash>, t: seq<Hash>)
    requires |u| == Pow2(k) && |t| == Pow2(k)
    ensures Tree(h, k + 1, u + t) == h(Tree(h, k, u), Tree(h, k, t))
  {
    assert (u + t)[..Pow2(k)] == u && (u + t)[Pow2(k)..] == t;
  }

  lemma CoversOne(h: Combine, forest: seq<Node>, ks: seq<nat>, s: seq<Hash>, node: Node, k: nat, t: seq<Hash>)
    requires Covers(h, forest, ks, s) && Perfect(h, node, k, t) && (ks != [] ==> ks[|ks| - 1] > k)
    ensures Covers(h, forest + [node], ks + [k], s + t)
  {
    var all := s + t;
    assert all[|all| - Pow2(k)..] == t && all[..|all| - Pow2(k)] == s;
    assert (forest + [node])[..|forest|] == forest;
    assert (ks + [k])[..|ks|] == ks;
  }

  lemma LastTree(h: Combine, forest: seq<Node>, ks: seq<nat>, s: seq<Hash>) returns (before: seq<Hash>, u: seq<Hash>)
    requires Covers(h, forest, ks, s) && ks != []
    ensures before + u == s && Perfect(h, forest[|forest| - 1], ks[|ks| - 1], u)
    ensures Covers(h, forest[..|forest| - 1], ks[..|ks| - 1], before)
    ensures |ks| > 1 ==> ks[|ks| - 2] > ks[|ks| - 1]
  {
    var size := Pow2(ks[|ks| - 1]);
    before, u := s[..|s| - size], s[|s| - size..];
  }

  lemma Regroup(a: seq<Hash>, b: seq<Hash>, c: seq<Hash>)
    ensures a + (b + c) == a + b + c
  {
  }

  lemma PerfectJoin(h: Combine, a: Node, b: Node, k: nat, u: seq<Hash>, t: seq<Hash>)
    requires Perfect(h, a, k, u) && Perfect(h, b, k, t)
    ensures Perfect(h, Node(a.size + b.size, h(a.root, b.root)), k + 1, u + t)
  {
    SubtreesJoin(h, k, u, t);
  }

  lemma NoCarry(h: Combine, forest: seq<Node>, ks: seq<nat>, s: seq<Hash>, node: Node, k: nat)
    requires Covers(h, forest, ks, s) && node.size == Pow2(k) && (ks != [] ==> ks[|ks| - 1] > k)
    ensures Append(h, forest, node) == forest + [node]
  {
    if ks != [] {
      Pow2Grows(k, ks[|ks| - 1]);
    }
  }

  /** Appending a perfect subtree no taller than the last one carries like a binary counter. */
  lemma {:induction false} AppendCovers(h: Combine, forest: seq<Node>, ks: seq<nat>, s: seq<Hash>, node: Node, k: nat,
                                        t: seq<Hash>)
    returns (heights: seq<nat>)
    requires Covers(h, forest, ks, s) && Perfect(h, node, k, t) && (ks != [] ==> ks[|ks| - 1] >= k)
    ensures Covers(h, Append(h, forest, node), heights, s + t)
    decreases |forest|
  {
    if ks != [] && ks[|ks| - 1] == k {
      var before, u := LastTree(h, forest, ks, s);
      var last := forest[|forest| - 1];
      PerfectJoin(h, last, node, k, u, t);
      heights := AppendCovers(h, forest[..|forest| - 1], ks[..|ks| - 1], before,
                              Node(last.size + node.size, h(last.root, node.root)), k + 1, u + t);
      Regroup(before, u, t);
    } else {
      NoCarry(h, forest, ks, s, node, k);
      CoversOne(h, forest, ks, s, node, k, t);
      heights := ks + [k];
    }
  }

  method AppendNodeToForest(h: Combine, forest: seq<Node>, node: Node) returns (r: seq<Node>)
    ensures r == Append(h, forest, node)
  {
    var carry := node;
    r := forest;
    while r != [] && r[|r| - 1].size == carry.size
      invariant Append(h, forest, node) == Append(h, r, carry)
      decreases |r|
    {
      carry := Node(r[|r| - 1].size + carry.size, h(r[|r| - 1].root, carry.root));
      r := r[..|r| - 1];
    }
    r := r + [carry];
  }

  // ── a forest whose leaves number a power of two is one tree ──────────────────

  lemma {:induction false} CoveredLength(h: Combine, forest: seq<Node>, ks: seq<nat>, s: seq<Hash>)
    requires Covers(h, forest, ks, s) && forest != []
    ensures Pow2(ks[0]) <= |s| && |s| + Pow2(ks[|ks| - 1]) <= Pow2(ks[0] + 1)
    ensures |forest| > 1 ==> Pow2(ks[0]) < |s|
    decreases |forest|
  {
    var n := |forest| - 1;
    if n > 0 {
      CoveredLength(h, forest[..n], ks[..n], s[..|s| - Pow2(ks[n])]);
      Pow2Grows(ks[n], ks[n - 1]);
    }
  }

  lemma SingleTree(h: Combine, forest: seq<Node>, ks: seq<nat>, s: seq<Hash>, height: nat)
    requires Covers(h, forest, ks, s) && |s| == Pow2(height)
    ensures |forest| == 1 && forest[0].root == Tree(h, height, s)
  {
    CoveredLength(h, forest, ks, s);
    if ks[0] < height {
      Pow2Grows(ks[0], height);
    } else if height < ks[0] {
      Pow2Grows(height, ks[0]);
    }
    if |forest| == 1 {
      assert s[|s| - Pow2(height)..] == s;
    }
  }

  // ── zero padding by aligned blocks ───────────────────────────────────────────

  function ZeroNode(h: Combine, size: nat): Node
    decreases size
  {
    if size <= 1 then Node(size, ZERO)
    else
      var child := ZeroNode(h, size / 2);
      Node(size, h(child.root, child.root))
  }

  lemma {:induction false} ZeroNodeIsTree(h: Combine, k: nat)
    ensures Perfect(h, ZeroNode(h, Pow2(k)), k, Zeros(Pow2(k)))
  {
    if k > 0 {
      ZeroNodeIsTree(h, k - 1);
      SubtreesJoin(h, k - 1, Zeros(Pow2(k - 1)), Zeros(Pow2(k - 1)));
      assert Zeros(Pow2(k - 1)) + Zeros(Pow2(k - 1)) == Zeros(Pow2(k));
    }
  }

  ghost predicate Multiple(n: nat, size: nat) {
    exists q: nat :: n == q * size
  }

  lemma MultipleWeakens(n: nat, j: nat, k: nat)
    requires j <= k && Multiple(n, Pow2(k))
    ensures Multiple(n, Pow2(j))
    decreases k - j
  {
    if j < k {
      var q: nat :| n == q * Pow2(k);
      assert n == (2 * q) * Pow2(k - 1);
      MultipleWeakens(n, j, k - 1);
    }
  }

  /** The leaves a forest covers number a multiple of its smallest subtree. */
  lemma {:induction false} CoveredMultiple(h: Combine, forest: seq<Node>, ks: seq<nat>, s: seq<Hash>, k: nat)
    requires Covers(h, forest, ks, s) && (ks != [] ==> k <= ks[|ks| - 1])
    ensures Multiple(|s|, Pow2(k))
    decreases |forest|
  {
    if forest == [] {
      assert 0 == 0 * Pow2(k);
    } else {
      var n := |forest| - 1;
      CoveredMultiple(h, forest[..n], ks[..n], s[..|s| - Pow2(ks[n])], ks[n]);
      var q: nat :| |s| - Pow2(ks[n]) == q * Pow2(ks[n]);
      assert |s| == (q + 1) * Pow2(ks[n]);
      MultipleWeakens(|s|, k, ks[n]);
    }
  }

  lemma Monotone(x: nat, y: nat, d: nat)
    requires x <= y
    ensures x * d <= y * d
  {
    assert (y - x) * d >= 0;
  }

  lemma NotBoth(q: nat, p: nat, b: nat)
    requires b > 0
    ensures q * (2 * b) != p * (2 * b) + b
  {
    if q <= p {
      Monotone(q, p, 2 * b);
    } else {
      Monotone(p + 1, q, 2 * b);
      assert (p + 1) * (2 * b) == p * (2 * b) + 2 * b;
    }
  }

  /** A block aligned to the number of leaves so far is no taller than the last subtree. */
  lemma AlignedFits(h: Combine, forest: seq<Node>, ks: seq<nat>, s: seq<Hash>, k: nat)
    requires Covers(h, forest, ks, s) && ks != [] && Multiple(|s|, Pow2(k))
    ensures ks[|ks| - 1] >= k
  {
    var n := |forest| - 1;
    var low := ks[n];
    if low < k {
      MultipleWeakens(|s|, low + 1, k);
      var q: nat :| |s| == q * Pow2(low + 1);
      CoveredMultiple(h, forest[..n], ks[..n], s[..|s| - Pow2(low)], low + 1);
      var p: nat :| |s| - Pow2(low) == p * Pow2(low + 1);
      NotBoth(q, p, Pow2(low));
    }
  }

  method LargestAlignedBlock(position: nat, remaining: nat) returns (size: nat, ghost k: nat)
    requires remaining > 0
    ensures size == Pow2(k) && size <= remaining && position % size == 0
    ensures size * 2 > remaining || position % (size * 2) != 0
  {
    size, k := 1, 0;
    while size * 2 <= remaining && position % (size * 2) == 0
      invariant size == Pow2(k) && size <= remaining && position % size == 0
      decreases remaining - size
    {
      size, k := size * 2, k + 1;
    }
  }

  /** One padding step: the next zero block in place of that many single zeros. */
  lemma PadCovers(h: Combine, forest: seq<Node>, ks: seq<nat>, s: seq<Hash>, k: nat) returns (heights: seq<nat>)
    requires Covers(h, forest, ks, s) && |s| % Pow2(k) == 0
    ensures Covers(h, Append(h, forest, ZeroNode(h, Pow2(k))), heights, s + Zeros(Pow2(k)))
  {
    if ks != [] {
      assert |s| == |s| / Pow2(k) * Pow2(k);
      AlignedFits(h, forest, ks, s, k);
    }
    ZeroNodeIsTree(h, k);
    heights := AppendCovers(h, forest, ks, s, ZeroNode(h, Pow2(k)), k, Zeros(Pow2(k)));
  }

  ghost predicate Padded(s: seq<Hash>, padded: seq<Hash>) {
    |s| <= |padded| && padded[..|s|] == s && forall i :: |s| <= i < |padded| ==> padded[i] == ZERO
  }

  lemma PaddedMore(s: seq<Hash>, padded: seq<Hash>, n: nat)
    requires Padded(s, padded)
    ensures Padded(s, padded + Zeros(n))
  {
  }

  lemma PaddedIs(s: seq<Hash>, padded: seq<Hash>)
    requires Padded(s, padded)
    ensures padded == s + Zeros(|padded| - |s|)
  {
  }

  method PadForest(h: Combine, forest: seq<Node>, eventCount: nat, padding: nat, ghost ks: seq<nat>, ghost s: seq<Hash>)
    returns (work: seq<Node>, ghost heights: seq<nat>)
    requires Covers(h, forest, ks, s) && |s| == eventCount
    ensures Covers(h, work, heights, s + Zeros(padding))
  {
    var position: nat, remaining: nat := eventCount, padding;
    ghost var sofar := s;
    work, heights := forest, ks;
    while remaining > 0
      invariant position == |sofar| && Padded(s, sofar) && |sofar| + remaining == eventCount + padding
      invariant Covers(h, work, heights, sofar)
    {
      var size, k := LargestAlignedBlock(position, remaining);
      heights := PadCovers(h, work, heights, sofar, k);
      work := AppendNodeToForest(h, work, ZeroNode(h, size));
      PaddedMore(s, sofar, size);
      sofar := sofar + Zeros(size);
      position, remaining := position + size, remaining - size;
    }
    PaddedIs(s, sofar);
  }

  method TargetFor(eventCount: nat) returns (target: nat)
    requires eventCount > 0
    ensures target == Pow2(HeightFor(eventCount, 0))
  {
    target := 1;
    ghost var height := 0;
    while target < eventCount
      invariant target == Pow2(height) && (height == 0 || Pow2(height - 1) < eventCount)
      invariant HeightFor(eventCount, height) == HeightFor(eventCount, 0)
      decreases eventCount - target
    {
      target, height := target * 2, height + 1;
    }
  }

  /** rootFromForest: padding reaches one tree, whose root is the padded tree's; the throw for a
      forest that did not reduce is never taken on a forest built from leaves. */
  method RootFromForest(h: Combine, forest: seq<Node>, eventCount: nat, ghost ks: seq<nat>, ghost s: seq<Hash>)
    returns (r: Option<Hash>)
    requires Covers(h, forest, ks, s) && |s| == eventCount
    ensures r == Some(PaddedRoot(h, s))
  {
    if eventCount == 0 {
      return Some(ZERO);
    }
    var target := TargetFor(eventCount);
    var work, heights := PadForest(h, forest, eventCount, target - eventCount, ks, s);
    SingleTree(h, work, heights, s + Zeros(target - eventCount), HeightFor(eventCount, 0));
    if |work| != 1 {
      return None;
    }
    return Some(work[0].root);
  }

  // ── leaves in id order ───────────────────────────────────────────────────────

  /** codePointCompare(a, b) <= 0. */
  predicate AtMost(a: Id, b: Id) {
    !CanonicalJson.Less(b, a)
  }

  /** Array.sort is stable: an earlier leaf goes before its equals. */
  function Insert(x: Leaf, s: seq<Leaf>): (r: seq<Leaf>)
    ensures forall y :: y in r <==> y == x || y in s
  {
    if s == [] || AtMost(x.id, s[0].id) then [x] + s
    else
      assert s == [s[0]] + s[1..];
      [s[0]] + Insert(x, s[1..])
  }

  function SortById(s: seq<Leaf>): (r: seq<Leaf>)
    ensures forall y :: y in r <==> y in s
  {
    if s == [] then []
    else
      assert s == [s[0]] + s[1..];
      Insert(s[0], SortById(s[1..]))
  }

  ghost predicate InOrder(s: seq<Leaf>) {
    forall i :: 0 <= i < |s| - 1 ==> AtMost(s[i].id, s[i + 1].id)
  }

  /** The leaves with an id, in order. */
  function OfId(s: seq<Leaf>, id: Id): seq<Leaf> {
    if s == [] then [] else (if s[0].id == id then [s[0]] else []) + OfId(s[1..], id)
  }

  function Own(x: Leaf, id: Id): seq<Leaf> {
    if x.id == id then [x] else []
  }

  lemma OfIdCons(x: Leaf, s: seq<Leaf>, id: Id)
    ensures OfId([x] + s, id) == Own(x, id) + OfId(s, id)
  {
  }

  lemma Swapped(x: Leaf, y: Leaf, id: Id, rest: seq<Leaf>)
    requires x.id != y.id
    ensures Own(y, id) + (Own(x, id) + rest) == Own(x, id) + (Own(y, id) + rest)
  {
  }

  lemma {:induction false} InsertStable(x: Leaf, s: seq<Leaf>, id: Id)
    ensures OfId(Insert(x, s), id) == Own(x, id) + OfId(s, id)
  {
    if s == [] || AtMost(x.id, s[0].id) {
      OfIdCons(x, s, id);
    } else {
      LessIsNotEqual(s[0].id, x.id);
      InsertStable(x, s[1..], id);
      OfIdCons(s[0], Insert(x, s[1..]), id);
      Swapped(x, s[0], id, OfId(s[1..], id));
    }
  }

  lemma LessIsNotEqual(a: Id, b: Id)
    requires CanonicalJson.Less(a, b)
    ensures a != b
  {
    CanonicalJson.LessTotal(a, b);
  }

  /** Sorting is ascending and stable, so that it is determined: leaves with one id stay in their order, none is
      lost and none doubled. */
  lemma {:induction false} SortIsStable(s: seq<Leaf>, id: Id)
    ensures InOrder(SortById(s)) && OfId(SortById(s), id) == OfId(s, id)
  {
    SortInOrder(s);
    if s != [] {
      SortIsStable(s[1..], id);
      InsertStable(s[0], SortById(s[1..]), id);
    }
  }

  /** Two ordered lists into one; the left list goes first on ties. */
  function Merge(a: seq<Leaf>, b: seq<Leaf>): seq<Leaf>
    decreases |a| + |b|
  {
    if a == [] then b
    else if b == [] then a
    else if AtMost(a[0].id, b[0].id) then [a[0]] + Merge(a[1..], b)
    else [b[0]] + Merge(a, b[1..])
  }

  /** Leaves whose id is not in `out`. */
  function Without(s: seq<Leaf>, out: set<Id>): seq<Leaf> {
    if s == [] then []
    else if s[0].id in out then Without(s[1..], out)
    else [s[0]] + Without(s[1..], out)
  }

  lemma AtMostTransitive(a: Id, b: Id, c: Id)
    requires AtMost(a, b) && AtMost(b, c)
    ensures AtMost(a, c)
  {
    CanonicalJson.LessTotal(a, b);
    CanonicalJson.LessTotal(b, c);
    if CanonicalJson.Less(a, b) && CanonicalJson.Less(b, c) {
      CanonicalJson.LessTransitive(a, b, c);
    }
    CanonicalJson.LessTotal(a, c);
  }

  lemma AtMostTotal(a: Id, b: Id)
    ensures AtMost(a, b) || AtMost(b, a)
    ensures AtMost(a, b) && AtMost(b, a) ==> a == b
  {
    CanonicalJson.LessTotal(a, b);
  }

  lemma InOrderTail(s: seq<Leaf>)
    requires InOrder(s) && s != []
    ensures InOrder(s[1..])
  {
    assert forall i :: 0 <= i < |s[1..]| ==> s[1..][i] == s[i + 1];
  }

  lemma InOrderCons(x: Leaf, s: seq<Leaf>)
    requires InOrder(s) && (s != [] ==> AtMost(x.id, s[0].id))
    ensures InOrder([x] + s)
  {
  }

  lemma {:induction false} InsertInOrder(x: Leaf, s: seq<Leaf>)
    requires InOrder(s)
    ensures InOrder(Insert(x, s))
    ensures Insert(x, s) != [] && (Insert(x, s)[0] == x || (s != [] && Insert(x, s)[0] == s[0]))
  {
    if s == [] || AtMost(x.id, s[0].id) {
      InOrderCons(x, s);
    } else {
      InOrderTail(s);
      AtMostTotal(x.id, s[0].id);
      InsertInOrder(x, s[1..]);
      InOrderCons(s[0], Insert(x, s[1..]));
    }
  }

  lemma {:induction false} SortInOrder(s: seq<Leaf>)
    ensures InOrder(SortById(s))
  {
    if s != [] {
      SortInOrder(s[1..]);
      InsertInOrder(s[0], SortById(s[1..]));
    }
  }

  lemma {:induction false} SortedStays(s: seq<Leaf>)
    requires InOrder(s)
    ensures SortById(s) == s
  {
    if s != [] {
      InOrderTail(s);
      SortedStays(s[1..]);
    }
  }

  lemma {:induction false} MergeInsert(x: Leaf, a: seq<Leaf>, b: seq<Leaf>)
    requires InOrder(a) && InOrder(b)
    ensures Merge(Insert(x, a), b) == Insert(x, Merge(a, b))
    decreases |a| + |b|
  {
    if b == [] {
    } else if a == [] {
      assert Insert(x, a) == [x];
      InOrderTail(b);
      if !AtMost(x.id, b[0].id) {
        MergeInsert(x, a, b[1..]);
      }
    } else {
      InOrderTail(a);
      InOrderTail(b);
      InsertInOrder(x, a);
      AtMostTotal(x.id, a[0].id);
      AtMostTotal(x.id, b[0].id);
      AtMostTotal(a[0].id, b[0].id);
      if AtMost(a[0].id, b[0].id) {
        if AtMost(x.id, a[0].id) {
          AtMostTransitive(x.id, a[0].id, b[0].id);
        } else {
          MergeInsert(x, a[1..], b);
        }
      } else if AtMost(x.id, b[0].id) {
        AtMostTransitive(x.id, b[0].id, a[0].id);
      } else {
        MergeInsert(x, a, b[1..]);
      }
    }
  }

  /** Sorting a concatenation is merging the sorted parts. */
  lemma {:induction false} SortAppend(a: seq<Leaf>, b: seq<Leaf>)
    ensures SortById(a + b) == Merge(SortById(a), SortById(b))
  {
    if a == [] {
      assert a + b == b;
    } else {
      assert (a + b)[1..] == a[1..] + b;
      SortAppend(a[1..], b);
      SortInOrder(a[1..]);
      SortInOrder(b);
      MergeInsert(a[0], SortById(a[1..]), SortById(b));
    }
  }

  lemma {:induction false} InsertFront(x: Leaf, s: seq<Leaf>, out: set<Id>)
    requires InOrder(s) && (s != [] ==> AtMost(x.id, s[0].id))
    ensures Insert(x, Without(s, out)) == [x] + Without(s, out)
  {
    if s != [] && s[0].id in out {
      InOrderTail(s);
      if |s| > 1 {
        AtMostTransitive(x.id, s[0].id, s[1].id);
      }
      InsertFront(x, s[1..], out);
    }
  }

  lemma {:induction false} WithoutInsert(x: Leaf, s: seq<Leaf>, out: set<Id>)
    requires InOrder(s)
    ensures Without(Insert(x, s), out) == if x.id in out then Without(s, out) else Insert(x, Without(s, out))
  {
    if s == [] || AtMost(x.id, s[0].id) {
      InsertFront(x, s, out);
    } else {
      InOrderTail(s);
      WithoutInsert(x, s[1..], out);
    }
  }

  lemma {:induction false} SortWithout(s: seq<Leaf>, out: set<Id>)
    ensures Without(SortById(s), out) == SortById(Without(s, out))
  {
    if s != [] {
      SortWithout(s[1..], out);
      SortInOrder(s[1..]);
      WithoutInsert(s[0], SortById(s[1..]), out);
      if s[0].id !in out {
        assert Without(s, out)[1..] == Without(s[1..], out);
      }
    }
  }

  lemma WithoutInOrder(s: seq<Leaf>, out: set<Id>)
    requires InOrder(s)
    ensures InOrder(Without(s, out)) && SortById(Without(s, out)) == Without(s, out)
  {
    SortedStays(s);
    SortWithout(s, out);
    SortInOrder(Without(s, out));
  }

  /** Updating sorted leaves gives the leaves of the edited list sorted from scratch, duplicates and
      all: the cached path and the full rebuild see the same tree. */
  lemma UpdateIsRebuild(s: seq<Leaf>, additions: seq<Leaf>, out: set<Id>)
    ensures SortById(Without(SortById(s), out) + additions) == SortById(Without(s, out) + additions)
  {
    SortInOrder(s);
    WithoutInOrder(SortById(s), out);
    SortWithout(s, out);
    SortAppend(Without(SortById(s), out), additions);
    SortAppend(Without(s, out), additions);
  }

  // ── the leaf cache ───────────────────────────────────────────────────────────

  datatype Cache = Cache(eventCount: nat, root: Hash, leaves: seq<Leaf>, forest: seq<Node>)

  function Hashes(s: seq<Leaf>): (r: seq<Hash>)
    ensures |r| == |s|
  {
    if s == [] then [] else Hashes(s[..|s| - 1]) + [s[|s| - 1].hash]
  }

  function Forest(h: Combine, s: seq<Hash>): seq<Node> {
    if s == [] then [] else Append(h, Forest(h, s[..|s| - 1]), Node(1, s[|s| - 1]))
  }

  /** The simple form: the root is the padded tree over the leaves. */
  function CacheOf(h: Combine, leaves: seq<Leaf>): Cache {
    Cache(|leaves|, PaddedRoot(h, Hashes(leaves)), leaves, Forest(h, Hashes(leaves)))
  }

  /** What every cache the program builds satisfies. */
  ghost predicate Consistent(h: Combine, cache: Cache) {
    InOrder(cache.leaves) && cache == CacheOf(h, cache.leaves)
  }

  /** A cache of sorted leaves is consistent. */
  lemma SortedConsistent(h: Combine, leaves: seq<Leaf>)
    ensures Consistent(h, CacheOf(h, SortById(leaves)))
  {
    SortInOrder(leaves);
  }

  lemma ForestMore(h: Combine, s: seq<Hash>, x: Hash)
    ensures Forest(h, s + [x]) == Append(h, Forest(h, s), Node(1, x))
  {
    assert (s + [x])[..|s|] == s;
  }

  lemma CoversLeaf(h: Combine, forest: seq<Node>, ks: seq<nat>, s: seq<Hash>, x: Hash) returns (heights: seq<nat>)
    requires Covers(h, forest, ks, s)
    ensures Covers(h, Append(h, forest, Node(1, x)), heights, s + [x])
  {
    assert Perfect(h, Node(1, x), 0, [x]);
    heights := AppendCovers(h, forest, ks, s, Node(1, x), 0, [x]);
  }

  lemma {:induction false} ForestCovers(h: Combine, s: seq<Hash>) returns (ks: seq<nat>)
    ensures Covers(h, Forest(h, s), ks, s)
  {
    if s == [] {
      ks := [];
    } else {
      var init, last := s[..|s| - 1], s[|s| - 1];
      ks := ForestCovers(h, init);
      ks := CoversLeaf(h, Forest(h, init), ks, init, last);
      ForestMore(h, init, last);
      assert init + [last] == s;
    }
  }

  lemma HashesMore(before: seq<Leaf>, x: Leaf)
    ensures Hashes(before + [x]) == Hashes(before) + [x.hash]
  {
    assert (before + [x])[..|before|] == before;
  }

  lemma ForestGrows(h: Combine, done: seq<Leaf>, x: Leaf)
    ensures Forest(h, Hashes(done + [x])) == Append(h, Forest(h, Hashes(done)), Node(1, x.hash))
  {
    HashesMore(done, x);
    ForestMore(h, Hashes(done), x.hash);
  }

  lemma TakeOneMore(before: seq<Leaf>, leaves: seq<Leaf>, i: nat)
    requires i < |leaves|
    ensures before + leaves[..i + 1] == before + leaves[..i] + [leaves[i]]
  {
  }

  method AppendLeaves(h: Combine, forest: seq<Node>, leaves: seq<Leaf>, ghost before: seq<Leaf>) returns (r: seq<Node>)
    requires forest == Forest(h, Hashes(before))
    ensures r == Forest(h, Hashes(before + leaves))
  {
    r := forest;
    assert before + leaves[..0] == before;
    for i := 0 to |leaves|
      invariant r == Forest(h, Hashes(before + leaves[..i]))
    {
      ForestGrows(h, before + leaves[..i], leaves[i]);
      TakeOneMore(before, leaves, i);
      r := AppendNodeToForest(h, r, Node(1, leaves[i].hash));
    }
    assert leaves[..|leaves|] == leaves;
  }

  method BuildForestFromLeaves(h: Combine, leaves: seq<Leaf>) returns (r: seq<Node>)
    ensures r == Forest(h, Hashes(leaves))
  {
    r := AppendLeaves(h, [], leaves, []);
    assert [] + leaves == leaves;
  }

  method CacheFromForest(h: Combine, leaves: seq<Leaf>, forest: seq<Node>) returns (r: Option<Cache>)
    requires forest == Forest(h, Hashes(leaves))
    ensures r == Some(CacheOf(h, leaves))
  {
    ghost var ks := ForestCovers(h, Hashes(leaves));
    var root := RootFromForest(h, forest, |leaves|, ks, Hashes(leaves));
    r := Some(Cache(|leaves|, root.value, leaves, forest));
  }

  method BuildCorpusRootLeafCacheFromLeaves(h: Combine, inputLeaves: seq<Leaf>) returns (r: Option<Cache>)
    ensures r == Some(CacheOf(h, SortById(inputLeaves))) && Consistent(h, r.value)
  {
    SortedConsistent(h, inputLeaves);
    var leaves := SortById(inputLeaves);
    var forest := BuildForestFromLeaves(h, leaves);
    r := CacheFromForest(h, leaves, forest);
  }

  function Ids(s: seq<Leaf>): (r: set<Id>)
    ensures forall id :: id in r <==> exists i :: 0 <= i < |s| && s[i].id == id
  {
    set i | 0 <= i < |s| :: s[i].id
  }

  function Replaced(additions: seq<Leaf>, removals: seq<Id>): set<Id> {
    (set id | id in removals) + Ids(additions)
  }

  lemma {:induction false} WithoutNone(s: seq<Leaf>, out: set<Id>)
    requires forall i :: 0 <= i < |s| ==> s[i].id !in out
    ensures Without(s, out) == s
  {
    if s != [] {
      WithoutNone(s[1..], out);
    }
  }

  lemma {:induction false} MergeTail(a: seq<Leaf>, b: seq<Leaf>)
    requires b != [] ==> forall i :: 0 <= i < |a| ==> AtMost(a[i].id, b[0].id)
    ensures Merge(a, b) == a + b
  {
    if a != [] && b != [] {
      MergeTail(a[1..], b);
      assert a + b == [a[0]] + (a[1..] + b);
    }
  }

  lemma {:induction false} LastIsGreatest(s: seq<Leaf>, i: nat)
    requires InOrder(s) && i < |s|
    ensures AtMost(s[i].id, s[|s| - 1].id)
    decreases |s| - i
  {
    AtMostTotal(s[i].id, s[i].id);
    if i < |s| - 1 {
      LastIsGreatest(s, i + 1);
      AtMostTransitive(s[i].id, s[i + 1].id, s[|s| - 1].id);
    }
  }

  /** Additions that all sort after the old leaves are appended as they are. */
  lemma TailAppend(s: seq<Leaf>, additions: seq<Leaf>)
    requires InOrder(s)
    requires s == [] || forall y :: y in additions ==> CanonicalJson.Less(s[|s| - 1].id, y.id)
    ensures SortById(Without(s, Ids(additions)) + additions) == s + SortById(additions)
  {
    forall i, y | 0 <= i < |s| && y in additions
      ensures s[i].id != y.id && AtMost(s[i].id, y.id)
    {
      LastIsGreatest(s, i);
      CanonicalJson.LessTotal(s[|s| - 1].id, y.id);
      AtMostTransitive(s[i].id, s[|s| - 1].id, y.id);
    }
    assert forall i :: 0 <= i < |additions| ==> additions[i] in additions;
    WithoutNone(s, Ids(additions));
    SortAppend(s, additions);
    SortedStays(s);
    if SortById(additions) != [] {
      assert SortById(additions)[0] in additions;
    }
    MergeTail(s, SortById(additions));
  }

  function Remaining(leaves: seq<Leaf>, i: nat, out: set<Id>, added: seq<Leaf>, j: nat): seq<Leaf>
    requires i <= |leaves| && j <= |added|
  {
    Merge(Without(leaves[i..], out), added[j..])
  }

  lemma RemainingSkips(oldLeaves: seq<Leaf>, i: nat, out: set<Id>, added: seq<Leaf>, j: nat)
    requires i < |oldLeaves| && j <= |added| && oldLeaves[i].id in out
    ensures Remaining(oldLeaves, i, out, added, j) == Remaining(oldLeaves, i + 1, out, added, j)
  {
    assert oldLeaves[i..][1..] == oldLeaves[i + 1..];
  }

  lemma RemainingTakesOld(leaves: seq<Leaf>, oldLeaves: seq<Leaf>, i: nat, out: set<Id>, added: seq<Leaf>, j: nat)
    requires i < |oldLeaves| && j <= |added| && oldLeaves[i].id !in out
    requires j < |added| ==> AtMost(oldLeaves[i].id, added[j].id)
    ensures leaves + Remaining(oldLeaves, i, out, added, j) ==
            leaves + [oldLeaves[i]] + Remaining(oldLeaves, i + 1, out, added, j)
  {
    assert oldLeaves[i..][1..] == oldLeaves[i + 1..];
  }

  lemma RemainingTakesAdded(leaves: seq<Leaf>, oldLeaves: seq<Leaf>, i: nat, out: set<Id>, added: seq<Leaf>, j: nat)
    requires i < |oldLeaves| && j < |added| && oldLeaves[i].id !in out && !AtMost(oldLeaves[i].id, added[j].id)
    ensures leaves + Remaining(oldLeaves, i, out, added, j) ==
            leaves + [added[j]] + Remaining(oldLeaves, i, out, added, j + 1)
  {
    assert added[j..][1..] == added[j + 1..];
  }

  /** The merge loop, skipping replaced leaves. */
  method MergeLeaves(oldLeaves: seq<Leaf>, out: set<Id>, added: seq<Leaf>) returns (leaves: seq<Leaf>)
    ensures leaves == Merge(Without(oldLeaves, out), added)
  {
    leaves := [];
    var i, j := 0, 0;
    ghost var goal := Remaining(oldLeaves, 0, out, added, 0);
    while i < |oldLeaves| || j < |added|
      invariant i <= |oldLeaves| && j <= |added|
      invariant leaves + Remaining(oldLeaves, i, out, added, j) == goal
      decreases |oldLeaves| - i + |added| - j
    {
      while i < |oldLeaves| && oldLeaves[i].id in out
        invariant i <= |oldLeaves|
        invariant leaves + Remaining(oldLeaves, i, out, added, j) == goal
      {
        RemainingSkips(oldLeaves, i, out, added, j);
        i := i + 1;
      }
      if i >= |oldLeaves| {
        leaves, j := leaves + added[j..], |added|;
        break;
      }
      if j >= |added| {
        while i < |oldLeaves|
          invariant i <= |oldLeaves|
          invariant leaves + Remaining(oldLeaves, i, out, added, j) == goal
        {
          if oldLeaves[i].id !in out {
            RemainingTakesOld(leaves, oldLeaves, i, out, added, j);
            leaves := leaves + [oldLeaves[i]];
          } else {
            RemainingSkips(oldLeaves, i, out, added, j);
          }
          i := i + 1;
        }
        break;
      }
      if AtMost(oldLeaves[i].id, added[j].id) {
        RemainingTakesOld(leaves, oldLeaves, i, out, added, j);
        leaves, i := leaves + [oldLeaves[i]], i + 1;
      } else {
        RemainingTakesAdded(leaves, oldLeaves, i, out, added, j);
        leaves, j := leaves + [added[j]], j + 1;
      }
    }
  }

  lemma MergedIsSorted(s: seq<Leaf>, out: set<Id>, additions: seq<Leaf>)
    requires InOrder(s)
    ensures var merged := Merge(Without(s, out), SortById(additions));
            SortById(Without(s, out) + additions) == merged && SortById(merged) == merged
  {
    WithoutInOrder(s, out);
    SortAppend(Without(s, out), additions);
    SortInOrder(Without(s, out) + additions);
    SortedStays(Merge(Without(s, out), SortById(additions)));
  }

  lemma NothingChanges(s: seq<Leaf>)
    requires InOrder(s)
    ensures SortById(Without(s, Replaced([], [])) + []) == s
  {
    WithoutNone(s, Replaced([], []));
    SortedStays(s);
    assert s + [] == s;
  }

  /** The leaves of an updated cache. */
  function UpdatedLeaves(leaves: seq<Leaf>, additions: seq<Leaf>, removals: seq<Id>): seq<Leaf> {
    SortById(Without(leaves, Replaced(additions, removals)) + additions)
  }

  /** The incremental update equals a rebuild from the edited leaves: same leaves, same forest, same
      root, whichever of its three paths runs. */
  method UpdateCorpusRootLeafCache(h: Combine, cache: Cache, additions: seq<Leaf>, removals: seq<Id>)
    returns (r: Option<Cache>)
    requires Consistent(h, cache)
    ensures r == Some(CacheOf(h, UpdatedLeaves(cache.leaves, additions, removals))) && Consistent(h, r.value)
  {
    SortedConsistent(h, Without(cache.leaves, Replaced(additions, removals)) + additions);
    if additions == [] && removals == [] {
      NothingChanges(cache.leaves);
      return Some(cache);
    }
    var added := SortById(additions);
    var n := |cache.leaves|;
    if removals == [] && (n == 0 || forall y :: y in added ==> CanonicalJson.Less(cache.leaves[n - 1].id, y.id)) {
      var forest := AppendLeaves(h, cache.forest, added, cache.leaves);
      TailAppend(cache.leaves, additions);
      assert Replaced(additions, removals) == Ids(additions);
      r := CacheFromForest(h, cache.leaves + added, forest);
    } else {
      var leaves := MergeLeaves(cache.leaves, Replaced(additions, removals), added);
      MergedIsSorted(cache.leaves, Replaced(additions, removals), additions);
      r := BuildCorpusRootLeafCacheFromLeaves(h, leaves);
    }
  }
}
