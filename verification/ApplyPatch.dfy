/** The patch application algorithm of the Python reference. */
module ApplyPatch {
  import opened Wrappers
  import opened PatchCodec
  import opened Merkle

  datatype Result = Applied(words: seq<int>) | Error(code: string) | IndexError

  const RESERVED_START := 992
  const RESERVED_END := 1023

  // ── reserved bits ────────────────────────────────────────────────────────────

  function Two(k: nat): (r: nat)
    ensures r > 0
  {
    if k == 0 then 1 else 2 * Two(k - 1)
  }

  /** Word i has a bit set that no field of its range names; Python integers of any size and sign. */
  predicate ReservedBitSet(i: nat, w: int) {
    if i == 0 then w % Two(192) != 0 || w / Two(193) % Two(15) != 0     // bits 191:0 and 207:193
    else if i == 1 then w % Two(128) != 0
    else if i == 8 then w % Two(64) != 0
    else if 11 <= i <= 31 then w % Two(256) != 0
    else if 800 <= i <= 895 then w % Two(152) != 0
    else 992 <= i <= 1023 && w % Two(256) != 0
  }

  predicate HasReservedBits(words: seq<int>) {
    exists i :: 0 <= i < |words| && ReservedBitSet(i, words[i])
  }

  // ── apply_patch ──────────────────────────────────────────────────────────────

  /** Python list indexing: negative indices count from the end, others must be in range. */
  function Resolve(length: nat, index: int): (r: Option<nat>)
    ensures r.Some? ==> r.value < length
  {
    if 0 <= index < length then Some(index)
    else if 0 - length <= index < 0 then Some(length + index)
    else None
  }

  datatype Scan = Unchanged | Differs | OutOfRange

  /** The no-op loop: stops at the first word that differs. */
  function NoopScan(words: seq<int>, indices: seq<int>, values: seq<int>, count: nat): Scan
    decreases count
  {
    if count == 0 then Unchanged
    else if indices == [] || values == [] then OutOfRange
    else
      match Resolve(|words|, indices[0])
      case None => OutOfRange
      case Some(at) => if words[at] != values[0] then Differs else NoopScan(words, indices[1..], values[1..], count - 1)
  }

  /** The write loop: E02 on the first reserved index, otherwise later writes win. */
  function Write(words: seq<int>, indices: seq<int>, values: seq<int>, count: nat): (r: Result)
    ensures r.Applied? ==> |r.words| == |words|
    decreases count
  {
    if count == 0 then Applied(words)
    else if indices == [] then IndexError
    else if RESERVED_START <= indices[0] <= RESERVED_END then Error("E02")
    else if values == [] then IndexError
    else
      match Resolve(|words|, indices[0])
      case None => IndexError
      case Some(at) => Write(words[at := values[0]], indices[1..], values[1..], count - 1)
  }

  function Apply(h: HashFn, words: seq<int>, p: Patch): (r: Result)
    requires |words| == WORDS && WordRange(words)
  {
    if p.wordCount < 1 || p.wordCount > 4 then Error("E03")
    else if Root(h, words) != p.parentStateRoot then Error("E01")
    else
      match NoopScan(words, p.indices, p.newWords, p.wordCount)
      case OutOfRange => IndexError
      case Unchanged => Error("E05")
      case Differs =>
        var written := Write(words, p.indices, p.newWords, p.wordCount);
        if written.Applied? && HasReservedBits(written.words) then Error("E04") else written
  }

  // ── what a successful apply does ─────────────────────────────────────────────

  /** One entry per word, indices inside the state, words of 256 bits. */
  predicate Fits(p: Patch) {
    |p.indices| == p.wordCount == |p.newWords| && WordRange(p.newWords)
    && forall k :: 0 <= k < |p.indices| ==> 0 <= p.indices[k] < WORDS
  }

  /** The value the patch leaves at word i: its last write there, or the old word. */
  function LastWrite(words: seq<int>, indices: seq<int>, values: seq<int>, i: nat): int
    requires i < |words| && |indices| == |values|
    decreases |indices|
  {
    if indices == [] then words[i]
    else if indices[|indices| - 1] == i then values[|values| - 1]
    else LastWrite(words, indices[..|indices| - 1], values[..|values| - 1], i)
  }

  lemma {:induction false} LastWriteFront(words: seq<int>, indices: seq<int>, values: seq<int>, i: nat, at: nat)
    requires i < |words| && |indices| == |values| && indices != [] && indices[0] == at < |words|
    ensures LastWrite(words[at := values[0]], indices[1..], values[1..], i) == LastWrite(words, indices, values, i)
    decreases |indices|
  {
    var n := |indices| - 1;
    if n > 0 {
      assert indices[1..][..n - 1] == indices[..n][1..] && values[1..][..n - 1] == values[..n][1..];
      if indices[n] != i {
        LastWriteFront(words, indices[..n], values[..n], i, at);
      }
    }
  }

  /** With in-range indices the write loop leaves the last write at every word. */
  lemma {:induction false} WriteIsLastWrite(words: seq<int>, indices: seq<int>, values: seq<int>)
    requires |indices| == |values| && forall k :: 0 <= k < |indices| ==> 0 <= indices[k] < |words|
    ensures var r := Write(words, indices, values, |indices|);
            r.Applied? ==> forall i :: 0 <= i < |words| ==> r.words[i] == LastWrite(words, indices, values, i)
    decreases |indices|
  {
    var r := Write(words, indices, values, |indices|);
    if indices != [] && r.Applied? {
      var at := indices[0];
      WriteIsLastWrite(words[at := values[0]], indices[1..], values[1..]);
      forall i | 0 <= i < |words|
        ensures r.words[i] == LastWrite(words, indices, values, i)
      {
        LastWriteFront(words, indices, values, i, at);
      }
    }
  }

  lemma {:induction false} LastWriteInRange(words: seq<int>, indices: seq<int>, values: seq<int>, i: nat)
    requires i < |words| && |indices| == |values| && WordRange(words) && WordRange(values)
    ensures 0 <= LastWrite(words, indices, values, i) < Pow256(32)
    decreases |indices|
  {
    if indices != [] && indices[|indices| - 1] != i {
      LastWriteInRange(words, indices[..|indices| - 1], values[..|values| - 1], i);
    }
  }

  /** Success: every word holds its last write, words no index names are untouched, and no reserved
      bit is set. */
  lemma AppliedState(h: HashFn, words: seq<int>, p: Patch)
    requires |words| == WORDS && WordRange(words) && Fits(p) && Apply(h, words, p).Applied?
    ensures var next := Apply(h, words, p).words;
            && |next| == WORDS && WordRange(next) && !HasReservedBits(next)
            && (forall i :: 0 <= i < WORDS ==> next[i] == LastWrite(words, p.indices, p.newWords, i))
            && Root(h, words) == p.parentStateRoot
  {
    WriteIsLastWrite(words, p.indices, p.newWords);
    var next := Apply(h, words, p).words;
    forall i | 0 <= i < WORDS
      ensures 0 <= next[i] < Pow256(32)
    {
      LastWriteInRange(words, p.indices, p.newWords, i);
    }
  }

  /** The patch really changes something: some word's last write differs from the old word. */
  ghost predicate Effective(words: seq<int>, p: Patch)
    requires |words| == WORDS && Fits(p)
  {
    exists i :: 0 <= i < WORDS && LastWrite(words, p.indices, p.newWords, i) != words[i]
  }

  /** A successful apply changes the root exactly when the patch is effective. */
  lemma RootChangesIffEffective(h: HashFn, words: seq<int>, p: Patch)
    requires Digests(h) && |words| == WORDS && WordRange(words) && Fits(p) && Apply(h, words, p).Applied?
    requires var next := Apply(h, words, p).words;
             |next| == WORDS && WordRange(next) && CollisionFreeOn(h, Preimages(h, words) + Preimages(h, next))
    ensures Root(h, Apply(h, words, p).words) != Root(h, words) <==> Effective(words, p)
  {
    var next := Apply(h, words, p).words;
    AppliedState(h, words, p);
    if Root(h, next) == Root(h, words) {
      RootBinds(h, words, next);
    } else {
      assert next != words;
      var i :| 0 <= i < WORDS && next[i] != words[i];
    }
  }

  ghost predicate DistinctIndices(p: Patch) {
    forall j, k :: 0 <= j < k < |p.indices| ==> p.indices[j] != p.indices[k]
  }

  lemma {:induction false} OnlyWrite(words: seq<int>, indices: seq<int>, values: seq<int>, k: nat)
    requires |indices| == |values| && k < |indices| && 0 <= indices[k] < |words|
    requires forall j :: k < j < |indices| ==> indices[j] != indices[k]
    ensures LastWrite(words, indices, values, indices[k]) == values[k]
    decreases |indices|
  {
    var n := |indices| - 1;
    if k < n {
      assert indices[..n][k] == indices[k] && values[..n][k] == values[k];
      OnlyWrite(words, indices[..n], values[..n], k);
    }
  }

  lemma {:induction false} ScanFindsDifference(words: seq<int>, indices: seq<int>, values: seq<int>) returns (k: nat)
    requires |indices| == |values| && NoopScan(words, indices, values, |indices|) == Differs
    requires forall j :: 0 <= j < |indices| ==> 0 <= indices[j] < |words|
    ensures k < |indices| && values[k] != words[indices[k]]
    decreases |indices|
  {
    if words[indices[0]] != values[0] {
      k := 0;
    } else {
      var rest := ScanFindsDifference(words, indices[1..], values[1..]);
      k := rest + 1;
    }
  }

  /** With distinct indices a patch that passes the no-op check is effective. */
  lemma DistinctIsEffective(h: HashFn, words: seq<int>, p: Patch)
    requires |words| == WORDS && WordRange(words) && Fits(p) && DistinctIndices(p) && Apply(h, words, p).Applied?
    ensures Effective(words, p)
  {
    var k := ScanFindsDifference(words, p.indices, p.newWords);
    OnlyWrite(words, p.indices, p.newWords, k);
  }

  /** After a successful apply of an effective patch, every patch built on the same parent, the same
      one or a sibling, is refused with E01. */
  lemma ParentIsSpent(h: HashFn, words: seq<int>, p: Patch, q: Patch)
    requires Digests(h) && |words| == WORDS && WordRange(words) && Fits(p) && Apply(h, words, p).Applied?
    requires var next := Apply(h, words, p).words;
             |next| == WORDS && WordRange(next) && CollisionFreeOn(h, Preimages(h, words) + Preimages(h, next))
    requires DistinctIndices(p) && q.parentStateRoot == p.parentStateRoot && 1 <= q.wordCount <= 4
    ensures Root(h, Apply(h, words, p).words) != Root(h, words)
    ensures Apply(h, Apply(h, words, p).words, q) == Error("E01")
  {
    DistinctIsEffective(h, words, p);
    RootChangesIffEffective(h, words, p);
    AppliedState(h, words, p);
  }

  /** Repeated indices can undo themselves: the patch is applied and the state is unchanged. */
  lemma RepeatedIndexCanBeIneffective(h: HashFn, words: seq<int>, at: nat, value: nat)
    requires |words| == WORDS && WordRange(words) && !HasReservedBits(words)
    requires at < RESERVED_START && value < Pow256(32) && value != words[at] && |Root(h, words)| == 32
    ensures Apply(h, words, Patch(1, 2, 0, Root(h, words), [at, at], [value, words[at]])) == Applied(words)
  {
    WriteBack(words, at, value);
    assert NoopScan(words, [at, at], [value, words[at]], 2) == Differs;
  }

  lemma WriteBack(words: seq<int>, at: nat, value: nat)
    requires at < |words| && at < RESERVED_START
    ensures Write(words, [at, at], [value, words[at]], 2) == Applied(words)
  {
    var indices, values := [at, at], [value, words[at]];
    assert indices[1..] == [at] && values[1..] == [words[at]];
    var once := words[at := value];
    assert once[at := words[at]] == words;
    assert Write(once, [at], [words[at]], 1) == Write(words, [at][1..], [words[at]][1..], 0);
  }

  // ── which result, exactly ────────────────────────────────────────────────────

  predicate Bit(w: int, k: nat) {
    w / Two(k) % 2 == 1
  }

  lemma LowBitsStep(w: int, n: nat)
    ensures w % Two(n + 1) == w % Two(n) + if Bit(w, n) then Two(n) else 0
  {
    var t := Two(n);
    var q, r := w / t, w % t;
    var half, odd := q / 2, q % 2;
    Euclid(w, t);
    assert q == 2 * half + odd;
    assert w == half * (2 * t) + (odd * t + r) by {
      assert q * t == (2 * half) * t + odd * t;
      assert (2 * half) * t == half * (2 * t);
    }
    assert 0 <= odd * t + r < 2 * t;
    DivisionIs(w, 2 * t, half, odd * t + r);
  }

  lemma Euclid(w: int, t: nat)
    requires t > 0
    ensures w == w / t * t + w % t
  {
  }

  lemma Multiples(p: int, d: int)
    requires d > 0
    ensures p >= 1 ==> p * d >= d
    ensures p <= -1 ==> p * d <= -d
  {
  }

  /** Quotient and remainder are determined. */
  lemma DivisionIs(w: int, d: nat, q: int, r: int)
    requires d > 0 && w == q * d + r && 0 <= r < d
    ensures w / d == q && w % d == r
  {
    Euclid(w, d);
    var p := w / d - q;
    assert p * d == (w / d) * d - q * d;
    Multiples(p, d);
  }

  ghost predicate SomeBit(w: int, from: nat, to: nat) {
    exists k: nat :: from <= k < to && Bit(w, k)
  }

  lemma {:induction false} LowBits(w: int, n: nat)
    ensures w % Two(n) != 0 <==> SomeBit(w, 0, n)
  {
    if n > 0 {
      LowBits(w, n - 1);
      LowBitsStep(w, n - 1);
      OneMoreBit(w, n - 1);
    }
  }

  lemma OneMoreBit(w: int, n: nat)
    ensures SomeBit(w, 0, n + 1) <==> SomeBit(w, 0, n) || Bit(w, n)
  {
  }

  lemma ShiftedBit(w: int, n: nat, k: nat)
    ensures Bit(w / Two(n), k) == Bit(w, n + k)
  {
    TwoAdds(n, k);
    DividedTwice(w, Two(n), Two(k));
  }

  lemma DividedTwice(w: int, a: nat, b: nat)
    requires a > 0 && b > 0
    ensures w / a / b == w / (a * b)
  {
    var q, r := w / a, w % a;
    var p, s := q / b, q % b;
    Euclid(w, a);
    Euclid(q, b);
    Recombined(w, a, b, q, r, p, s);
    DigitBounds(a, b, r, s);
    DivisionIs(w, a * b, p, s * a + r);
  }

  lemma Recombined(w: int, a: nat, b: nat, q: int, r: int, p: int, s: int)
    requires w == q * a + r && q == p * b + s
    ensures w == p * (a * b) + (s * a + r)
  {
    assert q * a == (p * b) * a + s * a;
  }

  lemma DigitBounds(a: nat, b: nat, r: int, s: int)
    requires 0 <= r < a && 0 <= s < b
    ensures a * b > 0 && 0 <= s * a + r < a * b
  {
    assert s * a <= (b - 1) * a;
  }

  lemma {:induction false} TwoAdds(n: nat, k: nat)
    ensures Two(n + k) == Two(n) * Two(k)
  {
    if k > 0 {
      TwoAdds(n, k - 1);
      assert Two(n) * (2 * Two(k - 1)) == 2 * (Two(n) * Two(k - 1));
    }
  }

  /** The bits of word i that no field names. */
  predicate Reserved(i: nat, k: nat) {
    || (i == 0 && (k <= 191 || 193 <= k <= 207))
    || (i == 1 && k <= 127)
    || (i == 8 && k <= 63)
    || (11 <= i <= 31 && k <= 255)
    || (800 <= i <= 895 && k <= 151)
    || (992 <= i <= 1023 && k <= 255)
  }

  lemma ShiftedUp(w: int, from: nat, m: nat, k: nat)
    requires k < m && Bit(w / Two(from), k)
    ensures SomeBit(w, from, from + m)
  {
    ShiftedBit(w, from, k);
    assert Bit(w, from + k);
  }

  lemma ShiftedDown(w: int, from: nat, m: nat, k: nat)
    requires from <= k < from + m && Bit(w, k)
    ensures SomeBit(w / Two(from), 0, m)
  {
    ShiftedBit(w, from, k - from);
    assert Bit(w / Two(from), k - from);
  }

  lemma ShiftedBits(w: int, from: nat, m: nat)
    ensures SomeBit(w / Two(from), 0, m) <==> SomeBit(w, from, from + m)
  {
    var shifted := w / Two(from);
    if SomeBit(shifted, 0, m) {
      var k: nat :| 0 <= k < m && Bit(shifted, k);
      ShiftedUp(w, from, m, k);
    }
    if SomeBit(w, from, from + m) {
      var k: nat :| from <= k < from + m && Bit(w, k);
      ShiftedDown(w, from, m, k);
    }
  }

  ghost predicate ReservedBit(i: nat, w: int) {
    exists k: nat :: Reserved(i, k) && Bit(w, k)
  }

  lemma OneStretch(i: nat, w: int, n: nat)
    requires forall k: nat :: Reserved(i, k) <==> k < n
    ensures w % Two(n) != 0 <==> ReservedBit(i, w)
  {
    LowBits(w, n);
  }

  lemma TwoStretches(i: nat, w: int, n: nat, from: nat, m: nat)
    requires forall k: nat :: Reserved(i, k) <==> k < n || from <= k < from + m
    ensures w % Two(n) != 0 || w / Two(from) % Two(m) != 0 <==> ReservedBit(i, w)
  {
    LowBits(w, n);
    LowBits(w / Two(from), m);
    ShiftedBits(w, from, m);
    EitherStretch(i, w, n, from, m);
  }

  lemma EitherStretch(i: nat, w: int, n: nat, from: nat, m: nat)
    requires forall k: nat :: Reserved(i, k) <==> k < n || from <= k < from + m
    ensures ReservedBit(i, w) <==> SomeBit(w, 0, n) || SomeBit(w, from, from + m)
  {
  }

  lemma ReservedMeansBit(i: nat, w: int)
    ensures ReservedBitSet(i, w) <==> ReservedBit(i, w)
  {
    if i == 0 {
      TwoStretches(i, w, 192, 193, 15);
    } else if i == 1 {
      OneStretch(i, w, 128);
    } else if i == 8 {
      OneStretch(i, w, 64);
    } else if 11 <= i <= 31 || 992 <= i <= 1023 {
      OneStretch(i, w, 256);
    } else if 800 <= i <= 895 {
      OneStretch(i, w, 152);
    }
  }

  /** Every word of the patch is what the state holds already. */
  ghost predicate NothingNew(words: seq<int>, p: Patch)
    requires |words| == WORDS && Fits(p)
  {
    forall k :: 0 <= k < |p.indices| ==> words[p.indices[k]] == p.newWords[k]
  }

  ghost predicate HitsReservedRange(p: Patch) {
    exists k :: 0 <= k < |p.indices| && RESERVED_START <= p.indices[k] <= RESERVED_END
  }

  /** Some word would be left with a reserved bit set. */
  ghost predicate LeavesReservedBit(words: seq<int>, p: Patch)
    requires |words| == WORDS && Fits(p)
  {
    exists i :: 0 <= i < WORDS && ReservedBit(i, LastWrite(words, p.indices, p.newWords, i))
  }

  lemma {:induction false} ScanDecides(words: seq<int>, indices: seq<int>, values: seq<int>)
    requires |indices| == |values| && forall j :: 0 <= j < |indices| ==> 0 <= indices[j] < |words|
    ensures NoopScan(words, indices, values, |indices|)
            == if forall k :: 0 <= k < |indices| ==> words[indices[k]] == values[k] then Unchanged else Differs
    decreases |indices|
  {
    if indices != [] {
      ScanDecides(words, indices[1..], values[1..]);
      assert forall k :: 0 < k < |indices| ==> indices[k] == indices[1..][k - 1] && values[k] == values[1..][k - 1];
    }
  }

  lemma {:induction false} WriteDecides(words: seq<int>, indices: seq<int>, values: seq<int>)
    requires |indices| == |values| && forall j :: 0 <= j < |indices| ==> 0 <= indices[j] < |words|
    ensures var r := Write(words, indices, values, |indices|);
            if exists k :: 0 <= k < |indices| && RESERVED_START <= indices[k] <= RESERVED_END
            then r == Error("E02") else r.Applied?
    decreases |indices|
  {
    if indices != [] {
      assert forall k :: 0 < k < |indices| ==> indices[k] == indices[1..][k - 1];
      if !(RESERVED_START <= indices[0] <= RESERVED_END) {
        WriteDecides(words[indices[0] := values[0]], indices[1..], values[1..]);
      }
    }
  }

  lemma BitsDecide(words: seq<int>, p: Patch, written: seq<int>)
    requires |words| == WORDS == |written| && Fits(p)
    requires forall i :: 0 <= i < WORDS ==> written[i] == LastWrite(words, p.indices, p.newWords, i)
    ensures HasReservedBits(written) <==> LeavesReservedBit(words, p)
  {
    forall i | 0 <= i < WORDS
      ensures ReservedBitSet(i, written[i]) <==> ReservedBit(i, written[i])
    {
      ReservedMeansBit(i, written[i]);
    }
  }

  /** The result of applying any decoded patch, by the first of its five conditions that fails. */
  lemma ApplyDecides(h: HashFn, words: seq<int>, p: Patch)
    requires |words| == WORDS && WordRange(words) && Fits(p)
    ensures var r := Apply(h, words, p);
            if !(1 <= p.wordCount <= 4) then r == Error("E03")
            else if p.parentStateRoot != Root(h, words) then r == Error("E01")
            else if NothingNew(words, p) then r == Error("E05")
            else if HitsReservedRange(p) then r == Error("E02")
            else if LeavesReservedBit(words, p) then r == Error("E04")
            else r.Applied?
  {
    ScanDecides(words, p.indices, p.newWords);
    WriteDecides(words, p.indices, p.newWords);
    WriteIsLastWrite(words, p.indices, p.newWords);
    var written := Write(words, p.indices, p.newWords, p.wordCount);
    if written.Applied? {
      BitsDecide(words, p, written.words);
    }
  }

  // ── the imperative form ──────────────────────────────────────────────────────

  method ScanForNoop(words: seq<int>, p: Patch) returns (r: Scan)
    requires p.wordCount >= 0
    ensures r == NoopScan(words, p.indices, p.newWords, p.wordCount)
  {
    var k := 0;
    while k < p.wordCount
      invariant 0 <= k <= p.wordCount && k <= |p.indices| && k <= |p.newWords|
      invariant NoopScan(words, p.indices, p.newWords, p.wordCount)
                == NoopScan(words, p.indices[k..], p.newWords[k..], p.wordCount - k)
    {
      if k >= |p.indices| || k >= |p.newWords| {
        return OutOfRange;
      }
      var at := Resolve(|words|, p.indices[k]);
      if at.None? {
        return OutOfRange;
      }
      if words[at.value] != p.newWords[k] {
        return Differs;
      }
      assert p.indices[k..][1..] == p.indices[k + 1..] && p.newWords[k..][1..] == p.newWords[k + 1..];
      k := k + 1;
    }
    return Unchanged;
  }

  /** The write loop, in place on a copy of the words. */
  method WriteInPlace(words: seq<int>, p: Patch) returns (r: Result)
    requires p.wordCount >= 0
    ensures r == Write(words, p.indices, p.newWords, p.wordCount)
  {
    var copy := new int[|words|](i requires 0 <= i < |words| => words[i]);
    assert copy[..] == words;
    var k := 0;
    while k < p.wordCount
      invariant 0 <= k <= p.wordCount && k <= |p.indices| && k <= |p.newWords|
      invariant Write(words, p.indices, p.newWords, p.wordCount)
                == Write(copy[..], p.indices[k..], p.newWords[k..], p.wordCount - k)
    {
      if k >= |p.indices| {
        return IndexError;
      }
      if RESERVED_START <= p.indices[k] <= RESERVED_END {
        return Error("E02");
      }
      if k >= |p.newWords| {
        return IndexError;
      }
      var at := Resolve(copy.Length, p.indices[k]);
      if at.None? {
        return IndexError;
      }
      ghost var before := copy[..];
      copy[at.value] := p.newWords[k];
      assert copy[..] == before[at.value := p.newWords[k]];
      assert p.indices[k..][1..] == p.indices[k + 1..] && p.newWords[k..][1..] == p.newWords[k + 1..];
      k := k + 1;
    }
    return Applied(copy[..]);
  }

  method ApplyPatchToState(h: HashFn, words: seq<int>, p: Patch) returns (r: Result)
    requires |words| == WORDS && WordRange(words)
    ensures r == Apply(h, words, p)
  {
    if p.wordCount < 1 || p.wordCount > 4 {
      return Error("E03");
    }
    var root := MerkleizeState(h, words);
    if root != p.parentStateRoot {
      return Error("E01");
    }
    var scan := ScanForNoop(words, p);
    match scan
    case OutOfRange => return IndexError;
    case Unchanged => return Error("E05");
    case Differs =>
      r := WriteInPlace(words, p);
      if r.Applied? {
        var reserved := CheckReservedBits(r.words);
        if reserved {
          return Error("E04");
        }
      }
  }

  method CheckReservedBits(words: seq<int>) returns (found: bool)
    ensures found == HasReservedBits(words)
  {
    for i := 0 to |words|
      invariant forall j :: 0 <= j < i ==> !ReservedBitSet(j, words[j])
    {
      if ReservedBitSet(i, words[i]) {
        return true;
      }
    }
    return false;
  }
}
