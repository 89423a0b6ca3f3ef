/** The canonical JSON serializer that feeds every hash, and what its output identifies. */
module CanonicalJson {

  // UTF-16 code units; a lone surrogate is a legal unit of a JavaScript string.
  type Unit = u: int | 0 <= u < 0x10000
  type Text = seq<Unit>
  type Byte = b: int | 0 <= b < 256

  /** The values the serializer accepts, and the two it refuses. Integers stand for numbers. */
  datatype Value =
    | Null
    | Bool(b: bool)
    | Int(n: int)
    | NonFinite
    | Undefined
    | Str(s: Text)
    | BigInt(n: int)
    | Uint8Array(bytes: seq<Byte>)
    | Array(elements: seq<Value>)
    | Object(fields: seq<Field>)
  datatype Field = Field(key: Text, value: Value)

  // ── tokens ───────────────────────────────────────────────────────────────────

  const QUOTE: Unit := 0x22
  const BACKSLASH: Unit := 0x5C
  const COMMA: Unit := 0x2C
  const COLON: Unit := 0x3A
  const MINUS: Unit := 0x2D
  const OPEN_ARRAY: Unit := 0x5B
  const CLOSE_ARRAY: Unit := 0x5D
  const OPEN_OBJECT: Unit := 0x7B
  const CLOSE_OBJECT: Unit := 0x7D
  const NULL_TEXT: Text := [0x6E, 0x75, 0x6C, 0x6C]
  const TRUE_TEXT: Text := [0x74, 0x72, 0x75, 0x65]
  const FALSE_TEXT: Text := [0x66, 0x61, 0x6C, 0x73, 0x65]

  function HexDigit(d: int): Unit
    requires 0 <= d < 16
  {
    if d < 10 then 0x30 + d else 0x61 + d - 10
  }

  predicate IsDigit(u: Unit) { 0x30 <= u <= 0x39 }

  /** Decimal digits, most significant first. */
  function Digits(n: nat): (t: Text)
    ensures |t| > 0 && forall i :: 0 <= i < |t| ==> IsDigit(t[i])
  {
    if n < 10 then [0x30 + n] else Digits(n / 10) + [0x30 + n % 10]
  }

  function Decimal(n: int): Text {
    if n < 0 then [MINUS] + Digits(-n) else Digits(n)
  }

  // ── strings: JSON.stringify on a string ──────────────────────────────────────

  predicate Lead(u: Unit) { 0xD800 <= u < 0xDC00 }
  predicate Trail(u: Unit) { 0xDC00 <= u < 0xE000 }

  function UnicodeEscape(u: Unit): Text {
    [BACKSLASH, 0x75, HexDigit(u / 0x1000), HexDigit(u / 0x100 % 16), HexDigit(u / 0x10 % 16), HexDigit(u % 16)]
  }

  /** One unit on its own: the short escapes, \u00xx for other controls, \udxxx for a surrogate. */
  function Escape(u: Unit): Text {
    if u == QUOTE || u == BACKSLASH then [BACKSLASH, u]
    else if u == 0x08 then [BACKSLASH, 0x62]
    else if u == 0x09 then [BACKSLASH, 0x74]
    else if u == 0x0A then [BACKSLASH, 0x6E]
    else if u == 0x0C then [BACKSLASH, 0x66]
    else if u == 0x0D then [BACKSLASH, 0x72]
    else if u < 0x20 || Lead(u) || Trail(u) then UnicodeEscape(u)
    else [u]
  }

  /** A surrogate pair is copied; everything else is escaped unit by unit. */
  function Escaped(s: Text): Text {
    if s == [] then []
    else if |s| > 1 && Lead(s[0]) && Trail(s[1]) then [s[0], s[1]] + Escaped(s[2..])
    else Escape(s[0]) + Escaped(s[1..])
  }

  function Quoted(s: Text): Text {
    [QUOTE] + Escaped(s) + [QUOTE]
  }

  // ── bytes ────────────────────────────────────────────────────────────────────

  function BareHex(bytes: seq<Byte>): Text {
    if bytes == [] then []
    else BareHex(bytes[..|bytes| - 1]) + HexPair(bytes[|bytes| - 1])
  }

  function HexPair(b: Byte): Text {
    [HexDigit(b / 16), HexDigit(b % 16)]
  }

  method BytesToBareHex(bytes: seq<Byte>) returns (hex: Text)
    ensures hex == BareHex(bytes)
  {
    hex := [];
    for i := 0 to |bytes|
      invariant hex == BareHex(bytes[..i])
    {
      assert bytes[..i + 1][..i] == bytes[..i];
      hex := hex + HexPair(bytes[i]);
    }
    assert bytes[..|bytes|] == bytes;
  }

  // ── sorting keys ─────────────────────────────────────────────────────────────

  /** Array.sort's default order: by code units. */
  predicate Less(a: Text, b: Text) {
    if b == [] then false
    else if a == [] then true
    else a[0] < b[0] || (a[0] == b[0] && Less(a[1..], b[1..]))
  }

  function Insert(f: Field, sorted: seq<Field>): (r: seq<Field>)
    ensures multiset(r) == multiset(sorted) + multiset{f}
  {
    if sorted == [] then [f]
    else if Less(f.key, sorted[0].key) then [f] + sorted
    else
      assert sorted == [sorted[0]] + sorted[1..];
      [sorted[0]] + Insert(f, sorted[1..])
  }

  function SortByKey(fields: seq<Field>): (r: seq<Field>)
    ensures multiset(r) == multiset(fields)
  {
    if fields == [] then []
    else
      assert fields == [fields[0]] + fields[1..];
      Insert(fields[0], SortByKey(fields[1..]))
  }

  // ── the serializer ───────────────────────────────────────────────────────────

  /** Fields whose value is undefined are skipped, as JSON.stringify does. */
  function Visible(fields: seq<Field>): (r: seq<Field>)
    ensures forall f :: f in r <==> f in fields && !f.value.Undefined?
  {
    if fields == [] then []
    else
      var rest := Visible(fields[..|fields| - 1]);
      var last := fields[|fields| - 1];
      assert fields == fields[..|fields| - 1] + [last];
      if last.value.Undefined? then rest else rest + [last]
  }

  function SortedVisible(fields: seq<Field>): (r: seq<Field>)
    ensures forall f :: f in r <==> f in fields && !f.value.Undefined?
  {
    var sorted := SortByKey(fields);
    assert forall f :: f in sorted <==> f in multiset(sorted);
    assert forall f :: f in fields <==> f in multiset(fields);
    Visible(sorted)
  }

  function Serialize(v: Value): Text
    decreases v, 1
  {
    match v
    case Null => NULL_TEXT
    case Bool(b) => if b then TRUE_TEXT else FALSE_TEXT
    case Int(n) => Decimal(n)
    case NonFinite => []         // throws: see CanonicalText
    case Undefined => NULL_TEXT  // an array element; the top level and object fields never get here
    case Str(s) => Quoted(s)
    case BigInt(n) => Quoted(Decimal(n))
    case Uint8Array(bytes) => Quoted(BareHex(bytes))
    case Array(elements) => [OPEN_ARRAY] + Join(ElementTexts(v, elements)) + [CLOSE_ARRAY]
    case Object(fields) => [OPEN_OBJECT] + Join(Parts(v, SortedVisible(fields))) + [CLOSE_OBJECT]
  }

  function Join(parts: seq<Text>): Text {
    if parts == [] then []
    else if |parts| == 1 then parts[0]
    else parts[0] + [COMMA] + Join(parts[1..])
  }

  function ElementTexts(context: Value, elements: seq<Value>): (r: seq<Text>)
    requires forall i :: 0 <= i < |elements| ==> elements[i] < context
    ensures |r| == |elements|
    decreases context, 0, |elements|
  {
    if elements == [] then []
    else [Serialize(elements[0])] + ElementTexts(context, elements[1..])
  }

  function Part(f: Field): Text
    decreases f.value, 2
  {
    Quoted(f.key) + [COLON] + Serialize(f.value)
  }

  function Parts(context: Value, fields: seq<Field>): (r: seq<Text>)
    requires forall i :: 0 <= i < |fields| ==> fields[i].value < context
    ensures |r| == |fields|
    decreases context, 0, |fields|
  {
    if fields == [] then []
    else [Part(fields[0])] + Parts(context, fields[1..])
  }

  lemma {:induction false} PartsAppend(context: Value, fields: seq<Field>, f: Field)
    requires forall i :: 0 <= i < |fields| ==> fields[i].value < context
    requires f.value < context
    ensures Parts(context, fields + [f]) == Parts(context, fields) + [Part(f)]
    decreases |fields|
  {
    if fields == [] {
      assert fields + [f] == [f];
    } else {
      PartsAppend(context, fields[1..], f);
      assert (fields + [f])[1..] == fields[1..] + [f];
    }
  }

  /** What the loop of the object case has collected after the given keys. */
  function Collected(fields: seq<Field>): seq<Text> {
    if fields == [] then []
    else
      var last := fields[|fields| - 1];
      Collected(fields[..|fields| - 1]) + if last.value.Undefined? then [] else [Part(last)]
  }

  lemma {:induction false} CollectedIsParts(context: Value, fields: seq<Field>)
    requires forall f :: f in fields ==> f.value < context
    ensures forall i :: 0 <= i < |Visible(fields)| ==> Visible(fields)[i] in fields
    ensures Collected(fields) == Parts(context, Visible(fields))
    decreases |fields|
  {
    if fields != [] {
      var init := fields[..|fields| - 1];
      CollectedIsParts(context, init);
      if !fields[|fields| - 1].value.Undefined? {
        PartsAppend(context, Visible(init), fields[|fields| - 1]);
      }
    }
  }

  method CollectParts(sorted: seq<Field>) returns (parts: seq<Text>)
    ensures parts == Collected(sorted)
  {
    parts := [];
    for i := 0 to |sorted|
      invariant parts == Collected(sorted[..i])
    {
      assert sorted[..i + 1][..i] == sorted[..i];
      if !sorted[i].value.Undefined? {
        parts := parts + [Quoted(sorted[i].key) + [COLON] + Serialize(sorted[i].value)];
      }
    }
    assert sorted[..|sorted|] == sorted;
  }

  /** The object case: sorted keys, undefined values skipped, parts joined. */
  method SerializeObject(v: Value) returns (text: Text)
    requires v.Object?
    ensures text == Serialize(v)
  {
    var sorted := SortByKey(v.fields);
    var parts := CollectParts(sorted);
    assert forall f :: f in sorted ==> f in v.fields by {
      assert forall f :: f in sorted <==> f in multiset(sorted);
      assert forall f :: f in v.fields <==> f in multiset(v.fields);
    }
    CollectedIsParts(v, sorted);
    text := [OPEN_OBJECT] + Join(parts) + [CLOSE_OBJECT];
  }

  predicate Finite(v: Value)
    decreases v
  {
    match v
    case NonFinite => false
    case Array(elements) => forall e :: e in elements ==> Finite(e)
    case Object(fields) => forall f :: f in fields ==> Finite(f.value)
    case _ => true
  }

  datatype Outcome = Thrown | Serialized(text: Text)

  /** canonicalJson: throws on a top-level undefined and on any non-finite number. */
  function CanonicalText(v: Value): Outcome {
    if v.Undefined? || !Finite(v) then Thrown else Serialized(Serialize(v))
  }

  // ── what a text identifies ───────────────────────────────────────────────────

  /** A value up to meaning: objects are maps, holes are null, bigints and bytes are strings. */
  datatype Meaning =
    | MNull
    | MBool(b: bool)
    | MInt(n: int)
    | MStr(s: Text)
    | MArray(elements: seq<Meaning>)
    | MObject(table: map<Text, Meaning>)

  function MeaningOf(v: Value): Meaning
    decreases v
  {
    match v
    case Null => MNull
    case Undefined => MNull
    case NonFinite => MNull
    case Bool(b) => MBool(b)
    case Int(n) => MInt(n)
    case Str(s) => MStr(s)
    case BigInt(n) => MStr(Decimal(n))
    case Uint8Array(bytes) => MStr(BareHex(bytes))
    case Array(elements) => MArray(Meanings(v, elements))
    case Object(fields) => MObject(Table(v, Visible(fields)))
  }

  function Meanings(context: Value, elements: seq<Value>): (r: seq<Meaning>)
    requires forall i :: 0 <= i < |elements| ==> elements[i] < context
    ensures |r| == |elements|
    decreases context, |elements|
  {
    if elements == [] then []
    else [MeaningOf(elements[0])] + Meanings(context, elements[1..])
  }

  function Table(context: Value, fields: seq<Field>): map<Text, Meaning>
    requires forall i :: 0 <= i < |fields| ==> fields[i].value < context
    decreases context, |fields|
  {
    if fields == [] then map[]
    else Table(context, fields[1..])[fields[0].key := MeaningOf(fields[0].value)]
  }

  ghost predicate DistinctKeys(fields: seq<Field>) {
    forall i, j :: 0 <= i < j < |fields| ==> fields[i].key != fields[j].key
  }

  /** A JavaScript object has each key once. */
  ghost predicate WellFormed(v: Value)
    decreases v
  {
    match v
    case Array(elements) => forall e :: e in elements ==> WellFormed(e)
    case Object(fields) => DistinctKeys(fields) && forall f :: f in fields ==> WellFormed(f.value)
    case _ => true
  }

  // ── where a text starts and ends ──────────────────────────────────────────────

  predicate Ends(rest: Text) {
    rest == [] || rest[0] == COMMA || rest[0] == CLOSE_ARRAY || rest[0] == CLOSE_OBJECT
  }

  predicate AllDigits(t: Text) {
    forall i :: 0 <= i < |t| ==> IsDigit(t[i])
  }

  lemma DecimalStart(n: int, r: Text)
    ensures var text := Decimal(n) + r;
            if n < 0 then text[0] == MINUS && text[1..] == Digits(-n) + r else IsDigit(text[0])
  {
    if n < 0 {
      assert Decimal(n) + r == [MINUS] + (Digits(-n) + r);
    } else {
      assert (Digits(n) + r)[0] == Digits(n)[0];
    }
  }

  predicate Pair(s: Text) {
    |s| > 1 && Lead(s[0]) && Trail(s[1])
  }

  lemma Regroup(a: Text, b: Text, c: Text)
    ensures (a + b) + c == a + (b + c)
  {
  }

  lemma QuotedSplit(s: Text, r: Text)
    ensures Quoted(s) + r == [QUOTE] + (Escaped(s) + ([QUOTE] + r))
  {
    Regroup([QUOTE] + Escaped(s), [QUOTE], r);
    Regroup([QUOTE], Escaped(s), [QUOTE] + r);
  }

  // ── arrays and objects ───────────────────────────────────────────────────────

  /** A text starts with a unit that no end starts with. */
  lemma SerializeStart(v: Value)
    requires Finite(v)
    ensures var t := Serialize(v); t != [] && !Ends(t)
    ensures match v
            case Null => Serialize(v)[0] == 0x6E
            case Undefined => Serialize(v)[0] == 0x6E
            case Bool(b) => Serialize(v)[0] == if b then 0x74 else 0x66
            case Int(n) => Serialize(v)[0] == MINUS || IsDigit(Serialize(v)[0])
            case Str(_) => Serialize(v)[0] == QUOTE
            case BigInt(_) => Serialize(v)[0] == QUOTE
            case Uint8Array(_) => Serialize(v)[0] == QUOTE
            case Array(_) => Serialize(v)[0] == OPEN_ARRAY
            case Object(_) => Serialize(v)[0] == OPEN_OBJECT
            case NonFinite => true
  {
    if v.Int? {
      DecimalStart(v.n, []);
      assert Decimal(v.n) + [] == Decimal(v.n);
    }
  }

  ghost predicate Below(context: Value, elements: seq<Value>) {
    forall i :: 0 <= i < |elements| ==> elements[i] < context && Finite(elements[i]) && WellFormed(elements[i])
  }

  ghost predicate FieldsBelow(context: Value, fields: seq<Field>) {
    forall i :: 0 <= i < |fields| ==>
      fields[i].value < context && Finite(fields[i].value) && WellFormed(fields[i].value)
  }

  function StringOf(v: Value): Text
    requires v.Str? || v.BigInt? || v.Uint8Array?
    ensures Serialize(v) == Quoted(StringOf(v)) && MeaningOf(v) == MStr(StringOf(v))
  {
    if v.Str? then v.s else if v.BigInt? then Decimal(v.n) else BareHex(v.bytes)
  }

  lemma SortedFieldsBelow(v: Value)
    requires v.Object? && Finite(v) && WellFormed(v)
    ensures FieldsBelow(v, SortedVisible(v.fields))
  {
    forall i | 0 <= i < |SortedVisible(v.fields)|
      ensures SortedVisible(v.fields)[i] in v.fields
    {
    }
  }

  lemma ObjectBody(v: Value, r: Text)
    requires v.Object? && Finite(v) && WellFormed(v) && FieldsBelow(v, SortedVisible(v.fields))
    ensures Serialize(v) + r == [OPEN_OBJECT] + (Join(Parts(v, SortedVisible(v.fields))) + ([CLOSE_OBJECT] + r))
  {
    Bracketed(OPEN_OBJECT, Join(Parts(v, SortedVisible(v.fields))), CLOSE_OBJECT, r);
  }

  lemma Bracketed(open: Unit, inner: Text, close: Unit, r: Text)
    ensures ([open] + inner + [close]) + r == [open] + (inner + ([close] + r))
  {
    Regroup([open] + inner, [close], r);
    Regroup([open], inner, [close] + r);
  }

  /** What follows the first part: the close bracket, or a comma and the other parts. */
  function Tail(parts: seq<Text>, r: Text): Text
    requires parts != []
  {
    if |parts| == 1 then r else [COMMA] + (Join(parts[1..]) + r)
  }

  lemma JoinStep(parts: seq<Text>, r: Text)
    requires parts != []
    ensures Join(parts) + r == parts[0] + Tail(parts, r)
  {
    if |parts| > 1 {
      Regroup(parts[0] + [COMMA], Join(parts[1..]), r);
      Regroup(parts[0], [COMMA], Join(parts[1..]) + r);
    }
  }

  lemma ElementsStart(v: Value, xs: seq<Value>, r: Text)
    requires Below(v, xs) && r != [] && r[0] == CLOSE_ARRAY
    ensures var a := ElementTexts(v, xs);
            var text := Join(a) + r;
            && text != [] && (text[0] == CLOSE_ARRAY <==> xs == [])
            && (xs == [] ==> text == r)
            && (xs != [] ==>
              text == Serialize(xs[0]) + Tail(a, r) && Ends(Tail(a, r)) && a[1..] == ElementTexts(v, xs[1..]))
  {
    if xs != [] {
      JoinStep(ElementTexts(v, xs), r);
      SerializeStart(xs[0]);
    }
  }

  lemma PartsStart(v: Value, fs: seq<Field>, r: Text)
    requires FieldsBelow(v, fs) && r != [] && r[0] == CLOSE_OBJECT
    ensures var a := Parts(v, fs);
            var text := Join(a) + r;
            && text != [] && (text[0] == CLOSE_OBJECT <==> fs == [])
            && (fs == [] ==> text == r)
            && (fs != [] ==> text == Part(fs[0]) + Tail(a, r) && Ends(Tail(a, r)) && a[1..] == Parts(v, fs[1..]))
  {
    if fs != [] {
      JoinStep(Parts(v, fs), r);
      PartSplit(fs[0], Tail(Parts(v, fs), r));
    }
  }

  lemma PartSplit(f: Field, rest: Text)
    ensures Part(f) + rest == Quoted(f.key) + ([COLON] + (Serialize(f.value) + rest)) && (Part(f) + rest)[0] == QUOTE
  {
    Regroup(Quoted(f.key) + [COLON], Serialize(f.value), rest);
    Regroup(Quoted(f.key), [COLON], Serialize(f.value) + rest);
  }

  // ── sorting ──────────────────────────────────────────────────────────────────

  ghost predicate Ascending(fields: seq<Field>) {
    forall i, j :: 0 <= i < j < |fields| ==> Less(fields[i].key, fields[j].key)
  }

  lemma {:induction false} LessTransitive(a: Text, b: Text, c: Text)
    requires Less(a, b) && Less(b, c)
    ensures Less(a, c)
  {
    if a != [] && a[0] == b[0] && b[0] == c[0] {
      LessTransitive(a[1..], b[1..], c[1..]);
    }
  }

  lemma {:induction false} LessTotal(a: Text, b: Text)
    ensures Less(a, b) || a == b || Less(b, a)
    ensures !(Less(a, b) && Less(b, a)) && !Less(a, a)
  {
    if a != [] && b != [] {
      LessTotal(a[1..], b[1..]);
      LessTotal(a[1..], a[1..]);
      assert a == [a[0]] + a[1..] && b == [b[0]] + b[1..];
    } else if a != [] {
      LessTotal(a[1..], a[1..]);
    }
  }

  lemma ConsAscending(f: Field, rest: seq<Field>)
    requires Ascending(rest) && forall i :: 0 <= i < |rest| ==> Less(f.key, rest[i].key)
    ensures Ascending([f] + rest)
  {
  }

  lemma {:induction false} InsertAscending(f: Field, sorted: seq<Field>)
    requires Ascending(sorted) && forall i :: 0 <= i < |sorted| ==> sorted[i].key != f.key
    ensures Ascending(Insert(f, sorted))
  {
    if sorted != [] {
      LessTotal(f.key, sorted[0].key);
      if Less(f.key, sorted[0].key) {
        forall i | 0 < i < |sorted|
          ensures Less(f.key, sorted[i].key)
        {
          LessTransitive(f.key, sorted[0].key, sorted[i].key);
        }
        ConsAscending(f, sorted);
      } else {
        var rest := Insert(f, sorted[1..]);
        InsertAscending(f, sorted[1..]);
        forall i | 0 <= i < |rest|
          ensures Less(sorted[0].key, rest[i].key)
        {
          assert rest[i] in multiset(rest);
          assert rest[i] in multiset(sorted[1..]) || rest[i] == f;
        }
        ConsAscending(sorted[0], rest);
      }
    }
  }

  lemma {:induction false} SortAscending(fields: seq<Field>)
    requires DistinctKeys(fields)
    ensures Ascending(SortByKey(fields))
  {
    if fields != [] {
      var rest := SortByKey(fields[1..]);
      SortAscending(fields[1..]);
      forall i | 0 <= i < |rest|
        ensures rest[i].key != fields[0].key
      {
        assert rest[i] in multiset(rest);
        assert rest[i] in multiset(fields[1..]);
        var j :| 0 <= j < |fields[1..]| && fields[1..][j] == rest[i];
      }
      InsertAscending(fields[0], rest);
    }
  }

  lemma {:induction false} VisibleAscending(fields: seq<Field>)
    requires Ascending(fields)
    ensures Ascending(Visible(fields))
  {
    if fields != [] {
      var init := fields[..|fields| - 1];
      VisibleAscending(init);
      var rest := Visible(init);
      forall i | 0 <= i < |rest|
        ensures Less(rest[i].key, fields[|fields| - 1].key)
      {
        assert rest[i] in init;
        var j :| 0 <= j < |init| && init[j] == rest[i];
      }
    }
  }

  lemma {:induction false} VisibleShorter(fields: seq<Field>)
    ensures |Visible(fields)| <= |fields|
  {
    if fields != [] {
      VisibleShorter(fields[..|fields| - 1]);
    }
  }

  lemma {:induction false} SortSameLength(fields: seq<Field>)
    ensures |SortByKey(fields)| == |fields|
  {
    assert |multiset(SortByKey(fields))| == |multiset(fields)|;
  }

  lemma SortedVisibleShorter(fields: seq<Field>)
    ensures |SortedVisible(fields)| <= |fields|
  {
    VisibleShorter(SortByKey(fields));
    SortSameLength(fields);
  }

  lemma {:induction false} TableKeys(v: Value, fields: seq<Field>, k: Text)
    requires forall i :: 0 <= i < |fields| ==> fields[i].value < v
    requires k in Table(v, fields)
    ensures exists i :: 0 <= i < |fields| && fields[i].key == k
    decreases |fields|
  {
    if k != fields[0].key {
      TableKeys(v, fields[1..], k);
      var j :| 0 <= j < |fields[1..]| && fields[1..][j].key == k;
      assert fields[j + 1].key == k;
    }
  }

  lemma {:induction false} TableValue(v: Value, fields: seq<Field>, i: nat)
    requires forall j :: 0 <= j < |fields| ==> fields[j].value < v
    requires DistinctKeys(fields) && i < |fields|
    ensures fields[i].key in Table(v, fields) && Table(v, fields)[fields[i].key] == MeaningOf(fields[i].value)
    decreases |fields|
  {
    if i > 0 {
      assert fields[i] == fields[1..][i - 1];
      TableValue(v, fields[1..], i - 1);
    }
  }

  /** With distinct keys a table lists exactly the fields, whatever their order. */
  lemma TableLookup(v: Value, fields: seq<Field>)
    requires forall i :: 0 <= i < |fields| ==> fields[i].value < v
    requires DistinctKeys(fields)
    ensures forall i :: 0 <= i < |fields| ==>
              fields[i].key in Table(v, fields) && Table(v, fields)[fields[i].key] == MeaningOf(fields[i].value)
    ensures forall k :: k in Table(v, fields) ==> exists i :: 0 <= i < |fields| && fields[i].key == k
  {
    forall i | 0 <= i < |fields|
      ensures fields[i].key in Table(v, fields) && Table(v, fields)[fields[i].key] == MeaningOf(fields[i].value)
    {
      TableValue(v, fields, i);
    }
    forall k | k in Table(v, fields)
      ensures exists i :: 0 <= i < |fields| && fields[i].key == k
    {
      TableKeys(v, fields, k);
    }
  }

  lemma AscendingDistinct(fields: seq<Field>)
    requires Ascending(fields)
    ensures DistinctKeys(fields)
  {
    forall i, j | 0 <= i < j < |fields|
      ensures fields[i].key != fields[j].key
    {
      LessTotal(fields[i].key, fields[j].key);
    }
  }

  lemma SortedVisibleAscending(fields: seq<Field>)
    requires DistinctKeys(fields)
    ensures Ascending(SortedVisible(fields))
  {
    SortAscending(fields);
    VisibleAscending(SortByKey(fields));
  }

  lemma {:induction false} VisibleDistinct(fields: seq<Field>)
    requires DistinctKeys(fields)
    ensures DistinctKeys(Visible(fields))
  {
    if fields != [] {
      var init := fields[..|fields| - 1];
      VisibleDistinct(init);
      forall i | 0 <= i < |Visible(init)|
        ensures Visible(init)[i].key != fields[|fields| - 1].key
      {
        assert Visible(init)[i] in init;
        var j :| 0 <= j < |init| && init[j] == Visible(init)[i];
      }
    }
  }

  lemma FewerFieldsSmallerTable(v: Value, fs: seq<Field>, gs: seq<Field>, k: Text)
    requires forall i :: 0 <= i < |fs| ==> fs[i].value < v
    requires forall i :: 0 <= i < |gs| ==> gs[i].value < v
    requires DistinctKeys(fs) && DistinctKeys(gs)
    requires forall f :: f in fs ==> f in gs
    requires k in Table(v, fs)
    ensures k in Table(v, gs) && Table(v, gs)[k] == Table(v, fs)[k]
  {
    TableLookup(v, fs);
    TableLookup(v, gs);
    var i :| 0 <= i < |fs| && fs[i].key == k;
    assert fs[i] in gs;
    var j :| 0 <= j < |gs| && gs[j] == fs[i];
  }

  lemma SameFieldsSameTable(v: Value, fs: seq<Field>, gs: seq<Field>)
    requires forall i :: 0 <= i < |fs| ==> fs[i].value < v
    requires forall i :: 0 <= i < |gs| ==> gs[i].value < v
    requires DistinctKeys(fs) && DistinctKeys(gs)
    requires forall f :: f in fs <==> f in gs
    ensures Table(v, fs) == Table(v, gs)
  {
    forall k | k in Table(v, fs)
      ensures k in Table(v, gs) && Table(v, gs)[k] == Table(v, fs)[k]
    {
      FewerFieldsSmallerTable(v, fs, gs, k);
    }
    forall k | k in Table(v, gs)
      ensures k in Table(v, fs)
    {
      FewerFieldsSmallerTable(v, gs, fs, k);
    }
    MapsEqual(Table(v, fs), Table(v, gs));
  }

  lemma MapsEqual(a: map<Text, Meaning>, b: map<Text, Meaning>)
    requires forall k :: k in a ==> k in b && b[k] == a[k]
    requires forall k :: k in b ==> k in a
    ensures a == b
  {
    assert forall k :: k in a <==> k in b;
  }

  lemma SortingKeepsTable(v: Value, fields: seq<Field>)
    requires forall i :: 0 <= i < |fields| ==> fields[i].value < v
    requires DistinctKeys(fields)
    ensures forall i :: 0 <= i < |SortedVisible(fields)| ==> SortedVisible(fields)[i].value < v
    ensures Table(v, SortedVisible(fields)) == Table(v, Visible(fields))
  {
    SortedVisibleAscending(fields);
    AscendingDistinct(SortedVisible(fields));
    VisibleDistinct(fields);
    forall i | 0 <= i < |SortedVisible(fields)|
      ensures SortedVisible(fields)[i].value < v
    {
      assert SortedVisible(fields)[i] in fields;
    }
    forall i | 0 <= i < |Visible(fields)|
      ensures Visible(fields)[i].value < v
    {
      assert Visible(fields)[i] in fields;
    }
    SameFieldsSameTable(v, SortedVisible(fields), Visible(fields));
  }

  // ── equal meanings have equal texts ──────────────────────────────────────────

  lemma {:induction false} SameMeaningSameText(v: Value, w: Value)
    requires Finite(v) && Finite(w) && WellFormed(v) && WellFormed(w)
    requires MeaningOf(v) == MeaningOf(w)
    ensures Serialize(v) == Serialize(w)
    decreases v
  {
    match v
    case Array(elements) => SameElements(v, v.elements, w, w.elements);
    case Object(fields) => SameObjects(v, w);
    case Str(_) => assert Serialize(w) == Quoted(StringOf(w));
    case BigInt(_) => assert Serialize(w) == Quoted(StringOf(w));
    case Uint8Array(_) => assert Serialize(w) == Quoted(StringOf(w));
    case _ =>
  }

  lemma SameObjects(v: Value, w: Value)
    requires v.Object? && w.Object? && Finite(v) && Finite(w) && WellFormed(v) && WellFormed(w)
    requires MeaningOf(v) == MeaningOf(w)
    ensures Serialize(v) == Serialize(w)
    decreases v, |v.fields| + 1
  {
    SortedVisibleShorter(v.fields);
    SortingKeepsTable(v, v.fields);
    SortingKeepsTable(w, w.fields);
    SortedVisibleAscending(v.fields);
    SortedVisibleAscending(w.fields);
    SameParts(v, SortedVisible(v.fields), w, SortedVisible(w.fields));
  }

  lemma {:induction false} SameElements(v: Value, xs: seq<Value>, w: Value, ys: seq<Value>)
    requires Below(v, xs) && Below(w, ys) && Meanings(v, xs) == Meanings(w, ys)
    ensures ElementTexts(v, xs) == ElementTexts(w, ys)
    decreases v, |xs|
  {
    if xs != [] {
      assert Meanings(v, xs)[0] == MeaningOf(xs[0]) && Meanings(w, ys)[0] == MeaningOf(ys[0]);
      assert Meanings(v, xs)[1..] == Meanings(v, xs[1..]) && Meanings(w, ys)[1..] == Meanings(w, ys[1..]);
      SameMeaningSameText(xs[0], ys[0]);
      SameElements(v, xs[1..], w, ys[1..]);
    }
  }

  /** The first key of an ascending list is the least key of its table. */
  lemma LeastFirst(v: Value, fs: seq<Field>, w: Value, gs: seq<Field>)
    requires FieldsBelow(v, fs) && FieldsBelow(w, gs) && Ascending(fs) && Ascending(gs)
    requires Table(v, fs) == Table(w, gs) && fs != []
    ensures gs != [] && fs[0].key == gs[0].key && MeaningOf(fs[0].value) == MeaningOf(gs[0].value)
  {
    AscendingDistinct(fs);
    AscendingDistinct(gs);
    TableLookup(v, fs);
    TableLookup(w, gs);
    var j :| 0 <= j < |gs| && gs[j].key == fs[0].key;
    var i :| 0 <= i < |fs| && fs[i].key == gs[0].key;
    LessTotal(fs[0].key, gs[0].key);
  }

  lemma RestOfTable(v: Value, fs: seq<Field>)
    requires FieldsBelow(v, fs) && Ascending(fs) && fs != []
    ensures Table(v, fs[1..]) == Table(v, fs) - {fs[0].key}
  {
    AscendingDistinct(fs);
    AscendingDistinct(fs[1..]);
    TableLookup(v, fs[1..]);
    UpdateThenRemove(Table(v, fs[1..]), fs[0].key, MeaningOf(fs[0].value));
  }

  lemma UpdateThenRemove(m: map<Text, Meaning>, k: Text, x: Meaning)
    requires k !in m
    ensures m[k := x] - {k} == m
  {
  }

  lemma {:induction false} SameParts(v: Value, fs: seq<Field>, w: Value, gs: seq<Field>)
    requires FieldsBelow(v, fs) && FieldsBelow(w, gs) && Ascending(fs) && Ascending(gs)
    requires Table(v, fs) == Table(w, gs)
    ensures Parts(v, fs) == Parts(w, gs)
    decreases v, |fs|
  {
    if fs == [] {
      assert gs == [] by {
        if gs != [] { LeastFirst(w, gs, v, fs); }
      }
    } else {
      LeastFirst(v, fs, w, gs);
      RestOfTable(v, fs);
      RestOfTable(w, gs);
      SameMeaningSameText(fs[0].value, gs[0].value);
      SameParts(v, fs[1..], w, gs[1..]);
    }
  }
}
