/** The patch wire format: LEB128 indices, big-endian words, a two's-complement score delta. */
module PatchCodec {
  import opened Wrappers

  type Byte = b: int | 0 <= b < 256
  type Bytes = seq<Byte>

  datatype Patch = Patch(patchType: int, wordCount: int, scoreDelta: int, parentStateRoot: Bytes,
                         indices: seq<int>, newWords: seq<int>)

  // ── LEB128 (section 5.2.2 of the WebAssembly Core Specification) ─────────────

  function EncodeLeb(n: nat): (r: Bytes)
    ensures |r| > 0
  {
    if n < 128 then [n] else [n % 128 + 128] + EncodeLeb(n / 128)
  }

  /** The value and the offset after it; None when the data ends before the last byte. */
  function DecodeLeb(data: Bytes, offset: nat): (r: Option<(nat, nat)>)
    ensures r.Some? ==> offset < r.value.1 <= |data|
    decreases |data| - offset
  {
    if offset >= |data| then None
    else if data[offset] < 128 then Some((data[offset], offset + 1))
    else
      match DecodeLeb(data, offset + 1)
      case None => None
      case Some((v, end)) => Some((data[offset] - 128 + 128 * v, end))
  }

  /** `part` stands in `data` at `offset`. */
  predicate At(data: Bytes, offset: nat, part: Bytes) {
    offset + |part| <= |data| && forall k :: 0 <= k < |part| ==> data[offset + k] == part[k]
  }

  lemma AtSplits(data: Bytes, offset: nat, a: Bytes, b: Bytes)
    requires At(data, offset, a + b)
    ensures At(data, offset, a) && At(data, offset + |a|, b)
  {
    assert forall k :: 0 <= k < |a| ==> (a + b)[k] == a[k];
    assert forall k :: 0 <= k < |b| ==> (a + b)[|a| + k] == b[k];
    forall k | 0 <= k < |b|
      ensures data[offset + |a| + k] == b[k]
    {
      assert data[offset + (|a| + k)] == (a + b)[|a| + k];
    }
  }

  /** An encoded number reads back wherever it stands. */
  lemma {:induction false} LebReadsBack(n: nat, data: Bytes, offset: nat)
    requires At(data, offset, EncodeLeb(n))
    ensures DecodeLeb(data, offset) == Some((n, offset + |EncodeLeb(n)|))
  {
    var code := EncodeLeb(n);
    assert data[offset + 0] == code[0];
    if n >= 128 {
      AtSplits(data, offset, [n % 128 + 128], EncodeLeb(n / 128));
      LebReadsBack(n / 128, data, offset + 1);
    }
  }

  lemma LebRoundTrip(n: nat, rest: Bytes)
    ensures DecodeLeb(EncodeLeb(n) + rest, 0) == Some((n, |EncodeLeb(n)|))
  {
    LebReadsBack(n, EncodeLeb(n) + rest, 0);
  }

  /** encode_leb128; None is the ValueError on a negative argument. */
  method EncodeLeb128(number: int) returns (r: Option<Bytes>)
    ensures r == if number < 0 then None else Some(EncodeLeb(number))
  {
    if number < 0 {
      return None;
    }
    var n, result := number, [];
    while n >= 128
      invariant n >= 0
      invariant EncodeLeb(number) == result + EncodeLeb(n)
    {
      result := result + [n % 128 + 128];
      n := n / 128;
    }
    return Some(result + [n]);
  }

  /** What is still to come, shifted past the bits read so far. */
  function Shifted(low: nat, weight: nat, rest: Option<(nat, nat)>): Option<(nat, nat)> {
    if rest.None? then None else Some((low + weight * rest.value.0, rest.value.1))
  }

  lemma ShiftByte(low: nat, weight: nat, b: nat, rest: Option<(nat, nat)>)
    ensures Shifted(low + weight * b, weight * 128, rest) ==
            Shifted(low, weight, if rest.None? then None else Some((b + 128 * rest.value.0, rest.value.1)))
  {
    if rest.Some? {
      assert weight * 128 * rest.value.0 == weight * (128 * rest.value.0);
      assert weight * (b + 128 * rest.value.0) == weight * b + weight * (128 * rest.value.0);
    }
  }

  /** decode_leb128: accumulates seven bits per byte at a growing shift (`weight` is 1 << shift). */
  method DecodeLeb128(data: Bytes, start: nat) returns (r: Option<(nat, nat)>)
    ensures r == DecodeLeb(data, start)
  {
    var result: nat, weight: nat, offset: nat := 0, 1, start;
    while true
      invariant DecodeLeb(data, start) == Shifted(result, weight, DecodeLeb(data, offset))
      decreases |data| - offset
    {
      if offset >= |data| {
        return None;
      }
      var b: nat := data[offset];
      if b < 128 {
        return Some((result + weight * b, offset + 1));
      }
      ShiftByte(result, weight, b - 128, DecodeLeb(data, offset + 1));
      result, weight, offset := result + weight * (b - 128), weight * 128, offset + 1;
    }
  }

  // ── big-endian integers ──────────────────────────────────────────────────────

  function Pow256(k: nat): (r: nat)
    ensures r > 0
  {
    if k == 0 then 1 else 256 * Pow256(k - 1)
  }

  function BigEndian(n: nat, k: nat): (r: Bytes)
    ensures |r| == k
  {
    if k == 0 then [] else BigEndian(n / 256, k - 1) + [n % 256]
  }

  function FromBigEndian(s: Bytes): nat {
    if s == [] then 0 else FromBigEndian(s[..|s| - 1]) * 256 + s[|s| - 1]
  }

  lemma {:induction false} BigEndianRoundTrip(n: nat, k: nat)
    requires n < Pow256(k)
    ensures FromBigEndian(BigEndian(n, k)) == n
  {
    if k > 0 {
      BigEndianRoundTrip(n / 256, k - 1);
      assert BigEndian(n, k)[..k - 1] == BigEndian(n / 256, k - 1);
    }
  }

  lemma BigEndianInjective(m: nat, n: nat, k: nat)
    requires m < Pow256(k) && n < Pow256(k) && BigEndian(m, k) == BigEndian(n, k)
    ensures m == n
  {
    BigEndianRoundTrip(m, k);
    BigEndianRoundTrip(n, k);
  }

  // ── the score delta: int64 as two uint32 words ───────────────────────────────

  const TWO_32: int := 0x1_0000_0000
  const TWO_63: int := 0x8000_0000_0000_0000
  const TWO_64: int := 0x1_0000_0000_0000_0000

  function EncodeDelta(delta: int): (r: Bytes)
    ensures |r| == 8
  {
    var u := delta % TWO_64;
    BigEndian(u / TWO_32, 4) + BigEndian(u % TWO_32, 4)
  }

  function DecodeDelta(s: Bytes): int
    requires |s| == 8
  {
    var u := FromBigEndian(s[..4]) * TWO_32 + FromBigEndian(s[4..]);
    if u >= TWO_63 then u - TWO_64 else u
  }

  /** The eight bytes, read as one number most significant first, are the delta modulo 2^64. */
  lemma DeltaLaidOut(delta: int)
    ensures var s := EncodeDelta(delta);
            TWO_32 * FromBigEndian(s[..4]) + FromBigEndian(s[4..]) == delta % TWO_64
  {
    var u := delta % TWO_64;
    assert Pow256(4) == TWO_32 by {
      assert Pow256(1) == 256 && Pow256(2) == 0x1_0000 && Pow256(3) == 0x100_0000;
    }
    BigEndianRoundTrip(u / TWO_32, 4);
    BigEndianRoundTrip(u % TWO_32, 4);
    var s := EncodeDelta(delta);
    assert s[..4] == BigEndian(u / TWO_32, 4) && s[4..] == BigEndian(u % TWO_32, 4);
  }

  lemma DeltaRoundTrip(delta: int)
    requires -TWO_63 <= delta < TWO_63
    ensures DecodeDelta(EncodeDelta(delta)) == delta
  {
    DeltaLaidOut(delta);
  }

  // ── patches ──────────────────────────────────────────────────────────────────

  const WORD_BYTES: nat := 32

  /** One (index, word) pair per target word; None when Python raises. */
  function EncodeWords(size: nat, indices: seq<int>, words: seq<int>, count: nat): Option<Bytes>
    decreases count
  {
    if count == 0 then Some([])
    else if indices == [] || words == [] || indices[0] < 0 || !(0 <= words[0] < Pow256(size)) then None
    else
      match EncodeWords(size, indices[1..], words[1..], count - 1)
      case None => None
      case Some(rest) => Some(EncodeLeb(indices[0]) + BigEndian(words[0], size) + rest)
  }

  function Header(p: Patch): (r: Bytes)
    requires |p.parentStateRoot| == 32
    ensures |r| == 42
  {
    [p.patchType % 256, p.wordCount % 256] + EncodeDelta(p.scoreDelta) + p.parentStateRoot
  }

  function EncodePatch(p: Patch): Option<Bytes> {
    if |p.parentStateRoot| != 32 then None
    else
      match EncodeWords(WORD_BYTES, p.indices, p.newWords, if p.wordCount < 0 then 0 else p.wordCount)
      case None => None
      case Some(words) => Some(Header(p) + words)
  }

  function DecodeWords(size: nat, data: Bytes, offset: nat, count: nat): Option<(seq<int>, seq<int>)>
    decreases count
  {
    if count == 0 then Some(([], []))
    else
      var leb := DecodeLeb(data, offset);
      if leb.None? || leb.value.1 + size > |data| then None
      else
        var at := leb.value.1;
        Extended([leb.value.0], [FromBigEndian(data[at..at + size])], DecodeWords(size, data, at + size, count - 1))
  }

  function Extended(indices: seq<int>, words: seq<int>, rest: Option<(seq<int>, seq<int>)>)
    : Option<(seq<int>, seq<int>)>
  {
    if rest.None? then None else Some((indices + rest.value.0, words + rest.value.1))
  }

  function DecodePatch(data: Bytes): Option<Patch> {
    if |data| < 42 then None
    else
      match DecodeWords(WORD_BYTES, data, 42, data[1])
      case None => None
      case Some((indices, words)) =>
        Some(Patch(data[0], data[1], DecodeDelta(data[2..10]), data[10..42], indices, words))
  }

  /** A patch the dataclass documents: byte-sized fields, an int64 delta, one entry per word. */
  predicate WellFormed(p: Patch) {
    && 0 <= p.patchType < 256 && 0 <= p.wordCount < 256
    && -TWO_63 <= p.scoreDelta < TWO_63 && |p.parentStateRoot| == 32
    && |p.indices| == p.wordCount == |p.newWords|
    && (forall i :: 0 <= i < |p.indices| ==> p.indices[i] >= 0)
    && (forall i :: 0 <= i < |p.newWords| ==> 0 <= p.newWords[i] < Pow256(WORD_BYTES))
  }

  /** The bytes of one pair read back as that pair wherever they stand. */
  lemma PairReadsBack(size: nat, index: nat, word: nat, data: Bytes, offset: nat)
    requires word < Pow256(size) && At(data, offset, EncodeLeb(index) + BigEndian(word, size))
    ensures var at := offset + |EncodeLeb(index)|;
            DecodeLeb(data, offset) == Some((index, at)) && at + size <= |data|
              && FromBigEndian(data[at..at + size]) == word
  {
    AtSplits(data, offset, EncodeLeb(index), BigEndian(word, size));
    LebReadsBack(index, data, offset);
    var at := offset + |EncodeLeb(index)|;
    assert data[at..at + size] == BigEndian(word, size);
    BigEndianRoundTrip(word, size);
  }

  /** Encodable pairs: what encode_patch accepts. */
  ghost predicate Encodable(size: nat, indices: seq<int>, words: seq<int>) {
    && |indices| == |words|
    && (forall i :: 0 <= i < |indices| ==> indices[i] >= 0)
    && (forall i :: 0 <= i < |words| ==> 0 <= words[i] < Pow256(size))
  }

  lemma {:induction false} WordsEncode(size: nat, indices: seq<int>, words: seq<int>)
    requires Encodable(size, indices, words)
    ensures EncodeWords(size, indices, words, |words|).Some?
    decreases |words|
  {
    if words != [] {
      WordsEncode(size, indices[1..], words[1..]);
    }
  }

  lemma EncodedPair(size: nat, indices: seq<int>, words: seq<int>, bytes: Bytes) returns (pair: Bytes, tail: Bytes)
    requires Encodable(size, indices, words) && words != [] && EncodeWords(size, indices, words, |words|) == Some(bytes)
    ensures pair == EncodeLeb(indices[0]) + BigEndian(words[0], size) && bytes == pair + tail
    ensures Encodable(size, indices[1..], words[1..])
            && EncodeWords(size, indices[1..], words[1..], |words| - 1) == Some(tail)
  {
    pair, tail := EncodeLeb(indices[0]) + BigEndian(words[0], size),
      EncodeWords(size, indices[1..], words[1..], |words| - 1).value;
  }

  lemma DecodedPair(size: nat, index: nat, word: nat, data: Bytes, offset: nat, count: nat, indices: seq<int>,
                    words: seq<int>)
    requires word < Pow256(size) && At(data, offset, EncodeLeb(index) + BigEndian(word, size))
    requires DecodeWords(size, data, offset + |EncodeLeb(index)| + size, count) == Some((indices, words))
    ensures DecodeWords(size, data, offset, count + 1) == Some(([index] + indices, [word] + words))
  {
    PairReadsBack(size, index, word, data, offset);
  }

  lemma HeadAndRest(s: seq<int>)
    requires s != []
    ensures [s[0]] + s[1..] == s
  {
  }

  lemma {:induction false} WordsReadBack(size: nat, indices: seq<int>, words: seq<int>, bytes: Bytes, data: Bytes,
                                         offset: nat)
    requires Encodable(size, indices, words)
    requires EncodeWords(size, indices, words, |words|) == Some(bytes) && At(data, offset, bytes)
    ensures DecodeWords(size, data, offset, |words|) == Some((indices, words))
    decreases |words|
  {
    if words != [] {
      var pair, tail := EncodedPair(size, indices, words, bytes);
      AtSplits(data, offset, pair, tail);
      var moreIndices, moreWords := indices[1..], words[1..];
      WordsReadBack(size, moreIndices, moreWords, tail, data, offset + |pair|);
      DecodedPair(size, indices[0], words[0], data, offset, |moreWords|, moreIndices, moreWords);
      HeadAndRest(indices);
      HeadAndRest(words);
    }
  }

  lemma HeaderReadsBack(p: Patch, words: Bytes, rest: Bytes)
    requires WellFormed(p)
    ensures var data := Header(p) + words + rest;
            |data| >= 42 && data[0] == p.patchType && data[1] == p.wordCount && data[2..10] == EncodeDelta(p.scoreDelta)
            && data[10..42] == p.parentStateRoot
  {
  }

  lemma BodyStands(head: Bytes, body: Bytes, rest: Bytes)
    ensures At(head + body + rest, |head|, body)
  {
  }

  lemma FieldsMakeThePatch(p: Patch, data: Bytes)
    requires |data| >= 42 && 0 <= p.wordCount && data[0] == p.patchType && data[1] == p.wordCount
    requires DecodeDelta(data[2..10]) == p.scoreDelta && data[10..42] == p.parentStateRoot
    requires DecodeWords(WORD_BYTES, data, 42, p.wordCount) == Some((p.indices, p.newWords))
    ensures DecodePatch(data) == Some(p)
  {
  }

  lemma PatchReadsBack(p: Patch, words: Bytes, rest: Bytes)
    requires WellFormed(p) && EncodeWords(WORD_BYTES, p.indices, p.newWords, p.wordCount) == Some(words)
    ensures DecodePatch(Header(p) + words + rest) == Some(p)
  {
    var data := Header(p) + words + rest;
    BodyStands(Header(p), words, rest);
    WordsReadBack(WORD_BYTES, p.indices, p.newWords, words, data, 42);
    DeltaRoundTrip(p.scoreDelta);
    HeaderReadsBack(p, words, rest);
    FieldsMakeThePatch(p, data);
  }

  /** Decoding an encoded patch gives it back, whatever follows it on the wire. */
  lemma PatchRoundTrip(p: Patch, rest: Bytes)
    requires WellFormed(p)
    ensures EncodePatch(p).Some? && DecodePatch(EncodePatch(p).value + rest) == Some(p)
  {
    WordsEncode(WORD_BYTES, p.indices, p.newWords);
    PatchReadsBack(p, EncodeWords(WORD_BYTES, p.indices, p.newWords, p.wordCount).value, rest);
  }

  lemma EncodePatchInjective(p: Patch, q: Patch)
    requires WellFormed(p) && WellFormed(q) && EncodePatch(p) == EncodePatch(q)
    ensures p == q
  {
    PatchRoundTrip(p, []);
    PatchRoundTrip(q, []);
  }

  // ── the wire layout ──────────────────────────────────────────────────────────

  /** Seven bits a byte, least significant first. */
  function SevenBits(bytes: Bytes): nat {
    if bytes == [] then 0 else bytes[0] % 128 + 128 * SevenBits(bytes[1..])
  }

  /** The shortest LEB128 of a number: a set high bit on all bytes but the last. */
  ghost predicate IsLeb(bytes: Bytes, n: int) {
    && |bytes| > 0 && SevenBits(bytes) == n && bytes[|bytes| - 1] < 128
    && (forall i :: 0 <= i < |bytes| - 1 ==> bytes[i] >= 128)
    && (|bytes| > 1 ==> bytes[|bytes| - 1] != 0)
  }

  lemma {:induction false} EncodedIsLeb(n: nat)
    ensures IsLeb(EncodeLeb(n), n) && (n > 0 ==> EncodeLeb(n)[|EncodeLeb(n)| - 1] != 0)
  {
    if n >= 128 {
      EncodedIsLeb(n / 128);
      assert EncodeLeb(n)[1..] == EncodeLeb(n / 128);
    }
  }

  function Concat(parts: seq<Bytes>): Bytes {
    if parts == [] then [] else parts[0] + Concat(parts[1..])
  }

  /** One (index, word) pair on the wire. */
  ghost predicate IsPair(size: nat, bytes: Bytes, index: int, word: int) {
    exists leb, be :: bytes == leb + be && IsLeb(leb, index) && |be| == size && FromBigEndian(be) == word
  }

  lemma {:induction false} WordsLaidOut(size: nat, indices: seq<int>, words: seq<int>, bytes: Bytes)
    returns (parts: seq<Bytes>)
    requires Encodable(size, indices, words) && EncodeWords(size, indices, words, |words|) == Some(bytes)
    ensures bytes == Concat(parts) && |parts| == |words|
    ensures forall i :: 0 <= i < |parts| ==> IsPair(size, parts[i], indices[i], words[i])
    decreases |words|
  {
    if words == [] {
      parts := [];
    } else {
      var pair, tail := EncodedPair(size, indices, words, bytes);
      EncodedIsLeb(indices[0]);
      BigEndianRoundTrip(words[0], size);
      assert IsPair(size, pair, indices[0], words[0]);
      var rest := WordsLaidOut(size, indices[1..], words[1..], tail);
      parts := [pair] + rest;
    }
  }

  /** The bytes of a patch: its type, its word count, the score delta as eight big-endian bytes in two's
      complement, the parent root, and for every word the LEB128 of its index and its 32 big-endian bytes. */
  lemma WireLayout(p: Patch) returns (data: Bytes, parts: seq<Bytes>)
    requires WellFormed(p)
    ensures EncodePatch(p) == Some(data) && |data| >= 42 && data[0] == p.patchType && data[1] == p.wordCount
    ensures TWO_32 * FromBigEndian(data[2..6]) + FromBigEndian(data[6..10]) == p.scoreDelta % TWO_64
    ensures data[10..42] == p.parentStateRoot && data[42..] == Concat(parts) && |parts| == p.wordCount
    ensures forall i :: 0 <= i < |parts| ==> IsPair(WORD_BYTES, parts[i], p.indices[i], p.newWords[i])
  {
    WordsEncode(WORD_BYTES, p.indices, p.newWords);
    var words := EncodeWords(WORD_BYTES, p.indices, p.newWords, p.wordCount).value;
    data := Header(p) + words;
    HeaderLaidOut(p, words);
    parts := WordsLaidOut(WORD_BYTES, p.indices, p.newWords, words);
  }

  lemma HeaderLaidOut(p: Patch, words: Bytes)
    requires WellFormed(p)
    ensures var data := Header(p) + words;
            && data[0] == p.patchType && data[1] == p.wordCount
            && TWO_32 * FromBigEndian(data[2..6]) + FromBigEndian(data[6..10]) == p.scoreDelta % TWO_64
            && data[10..42] == p.parentStateRoot && data[42..] == words
  {
    assert Header(p) + words + [] == Header(p) + words;
    HeaderReadsBack(p, words, []);
    DeltaLaidOut(p.scoreDelta);
    SlicedDelta(Header(p) + words, EncodeDelta(p.scoreDelta));
  }

  lemma SlicedDelta(data: Bytes, delta: Bytes)
    requires |data| >= 10 && |delta| == 8 && data[2..10] == delta
    ensures data[2..6] == delta[..4] && data[6..10] == delta[4..]
  {
    assert data[2..6] == data[2..10][..4] && data[6..10] == data[2..10][4..];
  }

  // ── the loops of encode_patch and decode_patch ───────────────────────────────

  method EncodePatchBytes(p: Patch) returns (r: Option<Bytes>)
    ensures r == EncodePatch(p)
  {
    if |p.parentStateRoot| != 32 {
      return None;
    }
    var head: Bytes := [p.patchType % 256, p.wordCount % 256];
    head := head + EncodeDelta(p.scoreDelta) + p.parentStateRoot;
    var body := EncodeBody(WORD_BYTES, p.indices, p.newWords, if p.wordCount < 0 then 0 else p.wordCount);
    if body.None? {
      return None;
    }
    return Some(head + body.value);
  }

  method EncodeBody(size: nat, indices: seq<int>, words: seq<int>, count: nat) returns (r: Option<Bytes>)
    ensures r == EncodeWords(size, indices, words, count)
  {
    var k, out: Bytes := 0, [];
    assert indices[0..] == indices && words[0..] == words;
    assert EncodeWords(size, indices, words, count) ==
           Prepended([], EncodeWords(size, indices[0..], words[0..], count)) by {
      assert forall b: Bytes :: [] + b == b;
    }
    while k < count
      invariant 0 <= k <= count && k <= |indices| && k <= |words|
      invariant EncodeWords(size, indices, words, count) ==
                Prepended(out, EncodeWords(size, indices[k..], words[k..], count - k))
    {
      if k >= |indices| || k >= |words| || indices[k] < 0 || !(0 <= words[k] < Pow256(size)) {
        return None;
      }
      var part := EncodeLeb(indices[k]) + BigEndian(words[k], size);
      assert indices[k..][1..] == indices[k + 1..] && words[k..][1..] == words[k + 1..];
      PrependSplit(out, part, EncodeWords(size, indices[k + 1..], words[k + 1..], count - k - 1));
      out := out + part;
      k := k + 1;
    }
    assert out + [] == out;
    return Some(out);
  }

  function Prepended(prefix: Bytes, rest: Option<Bytes>): Option<Bytes> {
    if rest.None? then None else Some(prefix + rest.value)
  }

  lemma PrependSplit(a: Bytes, b: Bytes, rest: Option<Bytes>)
    ensures Prepended(a, Prepended(b, rest)) == Prepended(a + b, rest)
  {
    if rest.Some? {
      assert a + (b + rest.value) == (a + b) + rest.value;
    }
  }

  method DecodePatchBytes(data: Bytes) returns (r: Option<Patch>)
    ensures r == DecodePatch(data)
  {
    if |data| < 42 {
      return None;
    }
    var body := DecodeBody(WORD_BYTES, data, 42, data[1]);
    if body.None? {
      return None;
    }
    return Some(Patch(data[0], data[1], DecodeDelta(data[2..10]), data[10..42], body.value.0, body.value.1));
  }

  method DecodeBody(size: nat, data: Bytes, start: nat, count: nat) returns (r: Option<(seq<int>, seq<int>)>)
    ensures r == DecodeWords(size, data, start, count)
  {
    var indices: seq<int>, words: seq<int>, offset: nat, left: nat := [], [], start, count;
    ghost var goal := DecodeWords(size, data, start, count);
    ExtendNone(goal);
    while left > 0
      invariant 0 <= left <= count
      invariant goal == Extended(indices, words, DecodeWords(size, data, offset, left))
    {
      var leb := DecodeLeb128(data, offset);
      if leb.None? || leb.value.1 + size > |data| {
        return None;
      }
      var at := leb.value.1;
      var word := FromBigEndian(data[at..at + size]);
      ExtendOne(indices, words, leb.value.0, word, DecodeWords(size, data, at + size, left - 1));
      indices, words, offset, left := indices + [leb.value.0], words + [word], at + size, left - 1;
    }
    return Some((indices + [], words + []));
  }

  lemma ExtendNone(rest: Option<(seq<int>, seq<int>)>)
    ensures Extended([], [], rest) == rest
  {
    if rest.Some? {
      assert [] + rest.value.0 == rest.value.0 && [] + rest.value.1 == rest.value.1;
    }
  }

  lemma ExtendOne(indices: seq<int>, words: seq<int>, i: int, w: int, rest: Option<(seq<int>, seq<int>)>)
    ensures Extended(indices, words, Extended([i], [w], rest)) == Extended(indices + [i], words + [w], rest)
  {
    if rest.Some? {
      assert indices + ([i] + rest.value.0) == (indices + [i]) + rest.value.0;
      assert words + ([w] + rest.value.1) == (words + [w]) + rest.value.1;
    }
  }
}
