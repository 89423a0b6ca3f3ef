/** The Merkle root of a 1024-word state. */
module Merkle {
  import opened PatchCodec

  // The hash is a parameter; keccak256 always yields 32 bytes.
  type HashFn = Bytes -> Bytes

  ghost predicate Digests(h: HashFn) {
    forall x: Bytes :: |h(x)| == 32
  }

  /** The level sizes of a perfect binary tree. */
  predicate PowerOfTwo(n: nat) {
    n == 1 || (n > 1 && n % 2 == 0 && PowerOfTwo(n / 2))
  }

  predicate WordRange(words: seq<int>) {
    forall i :: 0 <= i < |words| ==> 0 <= words[i] < Pow256(32)
  }

  function Leaves(h: HashFn, words: seq<int>): (r: seq<Bytes>)
    requires WordRange(words)
    ensures |r| == |words|
  {
    seq(|words|, i requires 0 <= i < |words| => h(BigEndian(words[i], 32)))
  }

  /** One round: keccak256(left || right) for each pair. */
  function Paired(h: HashFn, level: seq<Bytes>): (r: seq<Bytes>)
    ensures |r| == |level| / 2
  {
    seq(|level| / 2, i requires 0 <= i < |level| / 2 => h(level[2 * i] + level[2 * i + 1]))
  }

  function RootOf(h: HashFn, level: seq<Bytes>): Bytes
    requires PowerOfTwo(|level|)
    decreases |level|
  {
    if |level| == 1 then level[0] else RootOf(h, Paired(h, level))
  }

  const WORDS: nat := 1024

  lemma ThousandWords()
    ensures PowerOfTwo(WORDS)
  {
    assert PowerOfTwo(4) && PowerOfTwo(16) && PowerOfTwo(64) && PowerOfTwo(256);
  }

  function Root(h: HashFn, words: seq<int>): Bytes
    requires |words| == WORDS && WordRange(words)
  {
    ThousandWords();
    RootOf(h, Leaves(h, words))
  }

  /** One round of merkleize_state. */
  method PairUp(h: HashFn, level: seq<Bytes>) returns (next: seq<Bytes>)
    ensures next == Paired(h, level)
  {
    next := [];
    var i := 0;
    while i < |level| / 2
      invariant 0 <= i <= |level| / 2 && next == Paired(h, level)[..i]
    {
      next := next + [h(level[2 * i] + level[2 * i + 1])];
      i := i + 1;
    }
  }

  method HashLeaves(h: HashFn, words: seq<int>) returns (level: seq<Bytes>)
    requires WordRange(words)
    ensures level == Leaves(h, words)
  {
    level := [];
    for i := 0 to |words|
      invariant level == Leaves(h, words)[..i]
    {
      level := level + [h(BigEndian(words[i], 32))];
    }
  }

  /** merkleize_state: halve the level until one digest is left. */
  method MerkleizeState(h: HashFn, words: seq<int>) returns (root: Bytes)
    requires |words| == WORDS && WordRange(words)
    ensures root == Root(h, words)
  {
    var level := HashLeaves(h, words);
    ThousandWords();
    while |level| > 1
      invariant PowerOfTwo(|level|) && RootOf(h, level) == Root(h, words)
      decreases |level|
    {
      level := PairUp(h, level);
    }
    return level[0];
  }

  // ── the tree ─────────────────────────────────────────────────────────────────

  /** The root of the perfect binary tree over the leaves: the left half's root, then the right half's. */
  function TreeRoot(h: HashFn, leaves: seq<Bytes>): Bytes
    requires PowerOfTwo(|leaves|)
    decreases |leaves|
  {
    if |leaves| == 1 then leaves[0]
    else h(TreeRoot(h, leaves[..|leaves| / 2]) + TreeRoot(h, leaves[|leaves| / 2..]))
  }

  lemma PairedHalves(h: HashFn, level: seq<Bytes>)
    requires |level| % 4 == 0
    ensures var (half, next) := (|level| / 2, Paired(h, level));
            && next[..|next| / 2] == Paired(h, level[..half])
            && next[|next| / 2..] == Paired(h, level[half..])
  {
    var half := |level| / 2;
    assert forall i :: 0 <= i < half / 2 ==> level[half..][2 * i] == level[half + 2 * i];
  }

  /** Hashing adjacent pairs first does not change the tree. */
  lemma {:induction false} TreeOfPaired(h: HashFn, level: seq<Bytes>)
    requires PowerOfTwo(|level|) && |level| > 1
    ensures TreeRoot(h, Paired(h, level)) == TreeRoot(h, level)
    decreases |level|
  {
    var half := |level| / 2;
    if half == 1 {
      assert level[..1] == [level[0]] && level[1..] == [level[1]];
    } else {
      PairedHalves(h, level);
      TreeOfPaired(h, level[..half]);
      TreeOfPaired(h, level[half..]);
    }
  }

  lemma {:induction false} HalvingIsTree(h: HashFn, level: seq<Bytes>)
    requires PowerOfTwo(|level|)
    ensures RootOf(h, level) == TreeRoot(h, level)
    decreases |level|
  {
    if |level| > 1 {
      HalvingIsTree(h, Paired(h, level));
      TreeOfPaired(h, level);
    }
  }

  /** The root of a state is that of the perfect tree whose i-th leaf is the digest of the 32 bytes that
      read, most significant first, as the i-th word. */
  lemma RootIsTree(h: HashFn, words: seq<int>) returns (leaves: seq<Bytes>, data: seq<Bytes>)
    requires |words| == WORDS && WordRange(words)
    ensures |leaves| == |data| == WORDS && PowerOfTwo(WORDS) && Root(h, words) == TreeRoot(h, leaves)
    ensures forall i :: 0 <= i < WORDS ==>
              leaves[i] == h(data[i]) && |data[i]| == 32 && FromBigEndian(data[i]) == words[i]
  {
    ThousandWords();
    leaves := Leaves(h, words);
    data := seq(WORDS, i requires 0 <= i < WORDS => BigEndian(words[i], 32));
    HalvingIsTree(h, leaves);
    forall i | 0 <= i < WORDS
      ensures FromBigEndian(data[i]) == words[i]
    {
      BigEndianRoundTrip(words[i], 32);
    }
  }

  // ── binding ──────────────────────────────────────────────────────────────────

  ghost function PairInputs(level: seq<Bytes>): set<Bytes> {
    set i | 0 <= i < |level| / 2 :: level[2 * i] + level[2 * i + 1]
  }

  /** Everything that is hashed on the way from a level to its root. */
  ghost function NodeInputs(h: HashFn, level: seq<Bytes>): set<Bytes>
    requires PowerOfTwo(|level|)
    decreases |level|
  {
    if |level| == 1 then {} else PairInputs(level) + NodeInputs(h, Paired(h, level))
  }

  ghost function LeafInputs(words: seq<int>): set<Bytes>
    requires WordRange(words)
  {
    set i | 0 <= i < |words| :: BigEndian(words[i], 32)
  }

  ghost function Preimages(h: HashFn, words: seq<int>): set<Bytes>
    requires |words| == WORDS && WordRange(words)
  {
    ThousandWords();
    LeafInputs(words) + NodeInputs(h, Leaves(h, words))
  }

  ghost predicate CollisionFreeOn(h: HashFn, inputs: set<Bytes>) {
    forall x, y :: x in inputs && y in inputs && h(x) == h(y) ==> x == y
  }

  ghost predicate AllDigests(level: seq<Bytes>) {
    forall i :: 0 <= i < |level| ==> |level[i]| == 32
  }

  lemma PairSplits(a: Bytes, b: Bytes, c: Bytes, d: Bytes)
    requires |a| == |c| && a + b == c + d
    ensures a == c && b == d
  {
    assert (a + b)[..|a|] == a && (c + d)[..|c|] == c;
    assert (a + b)[|a|..] == b && (c + d)[|c|..] == d;
  }

  /** Equal next levels come from equal levels. */
  lemma PairedInjective(h: HashFn, a: seq<Bytes>, b: seq<Bytes>, inputs: set<Bytes>)
    requires CollisionFreeOn(h, inputs) && AllDigests(a) && AllDigests(b) && |a| == |b| && |a| % 2 == 0
    requires PairInputs(a) <= inputs && PairInputs(b) <= inputs
    requires Paired(h, a) == Paired(h, b)
    ensures a == b
  {
    forall i | 0 <= i < |a|
      ensures a[i] == b[i]
    {
      var k := i / 2;
      assert Paired(h, a)[k] == Paired(h, b)[k];
      assert a[2 * k] + a[2 * k + 1] in PairInputs(a) && b[2 * k] + b[2 * k + 1] in PairInputs(b);
      PairSplits(a[2 * k], a[2 * k + 1], b[2 * k], b[2 * k + 1]);
    }
  }

  lemma {:induction false} RootBindsLevel(h: HashFn, a: seq<Bytes>, b: seq<Bytes>, inputs: set<Bytes>)
    requires Digests(h) && CollisionFreeOn(h, inputs) && AllDigests(a) && AllDigests(b)
    requires |a| == |b| && PowerOfTwo(|a|) && NodeInputs(h, a) <= inputs && NodeInputs(h, b) <= inputs
    requires RootOf(h, a) == RootOf(h, b)
    ensures a == b
    decreases |a|
  {
    if |a| == 1 {
      assert a == [a[0]] && b == [b[0]];
    } else {
      RootBindsLevel(h, Paired(h, a), Paired(h, b), inputs);
      PairedInjective(h, a, b, inputs);
    }
  }

  lemma LeavesInjective(h: HashFn, s: seq<int>, t: seq<int>, inputs: set<Bytes>)
    requires |s| == |t| && WordRange(s) && WordRange(t) && CollisionFreeOn(h, inputs)
    requires LeafInputs(s) <= inputs && LeafInputs(t) <= inputs && Leaves(h, s) == Leaves(h, t)
    ensures s == t
  {
    forall i | 0 <= i < |s|
      ensures s[i] == t[i]
    {
      assert Leaves(h, s)[i] == Leaves(h, t)[i];
      assert BigEndian(s[i], 32) in LeafInputs(s) && BigEndian(t[i], 32) in LeafInputs(t);
      BigEndianInjective(s[i], t[i], 32);
    }
  }

  /** Unless the hash collides on something hashed for these two states, equal roots mean equal states. */
  lemma RootBinds(h: HashFn, s: seq<int>, t: seq<int>)
    requires Digests(h) && |s| == WORDS == |t| && WordRange(s) && WordRange(t)
    requires CollisionFreeOn(h, Preimages(h, s) + Preimages(h, t))
    requires Root(h, s) == Root(h, t)
    ensures s == t
  {
    ThousandWords();
    var inputs := Preimages(h, s) + Preimages(h, t);
    RootBindsLevel(h, Leaves(h, s), Leaves(h, t), inputs);
    LeavesInjective(h, s, t, inputs);
  }
}
