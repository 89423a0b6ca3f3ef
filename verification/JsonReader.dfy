/** A reader of compact JSON (RFC 8259 without insignificant whitespace, integers only), written on its own,
    and what it makes of canonical texts. */
module JsonReader {
  import opened Wrappers
  import opened CanonicalJson

  /** A JSON text as read: members in the order they stand. */
  datatype Json =
    | JNull
    | JBool(b: bool)
    | JInt(n: int)
    | JString(s: Text)
    | JArray(elements: seq<Json>)
    | JObject(members: seq<Member>)
  datatype Member = Member(name: Text, value: Json)

  // ── numbers ──────────────────────────────────────────────────────────────────

  /** The number a digit string stands for, most significant digit first. */
  function NumberOf(digits: Text): int {
    if digits == [] then 0 else 10 * NumberOf(digits[..|digits| - 1]) + (digits[|digits| - 1] - '0' as int)
  }

  function DigitRun(t: Text): (n: nat)
    ensures n <= |t|
  {
    if t == [] || !('0' as int <= t[0] <= '9' as int) then 0 else 1 + DigitRun(t[1..])
  }

  /** The integer part of a number: no leading zero. */
  function ReadNatural(t: Text): (r: Option<(int, Text)>)
    ensures r.Some? ==> |r.value.1| < |t|
  {
    var n := DigitRun(t);
    if n == 0 || (n > 1 && t[0] == '0' as int) then None else Some((NumberOf(t[..n]), t[n..]))
  }

  function ReadNumber(t: Text): (r: Option<(int, Text)>)
    ensures r.Some? ==> |r.value.1| < |t|
  {
    if t != [] && t[0] == '-' as int then
      match ReadNatural(t[1..])
      case None => None
      case Some((n, rest)) => Some((-n, rest))
    else ReadNatural(t)
  }

  // ── strings ──────────────────────────────────────────────────────────────────

  function HexValue(u: Unit): Option<int> {
    if '0' as int <= u <= '9' as int then Some(u - '0' as int)
    else if 'a' as int <= u <= 'f' as int then Some(u - 'a' as int + 10)
    else if 'A' as int <= u <= 'F' as int then Some(u - 'A' as int + 10)
    else None
  }

  /** The four hex digits of a \u escape. */
  function ReadHex4(t: Text): Option<Unit>
    requires |t| == 4
  {
    var (a, b, c, d) := (HexValue(t[0]), HexValue(t[1]), HexValue(t[2]), HexValue(t[3]));
    if a.None? || b.None? || c.None? || d.None? then None
    else
      var u := 4096 * a.value + 256 * b.value + 16 * c.value + d.value;
      if 0 <= u < 0x10000 then Some(u) else None
  }

  /** The two-character escapes of section 7 of RFC 8259. */
  function ShortEscape(u: Unit): Option<Unit> {
    if u == '"' as int || u == '\\' as int || u == '/' as int then Some(u)
    else if u == 'b' as int then Some(8)
    else if u == 't' as int then Some(9)
    else if u == 'n' as int then Some(10)
    else if u == 'f' as int then Some(12)
    else if u == 'r' as int then Some(13)
    else None
  }

  /** One unit of a string, escaped or not. */
  function ReadUnit(t: Text): (r: Option<(Unit, Text)>)
    ensures r.Some? ==> |r.value.1| < |t|
  {
    if t == [] || t[0] < 0x20 || t[0] == '"' as int then None
    else if t[0] != '\\' as int then Some((t[0], t[1..]))
    else if |t| >= 6 && t[1] == 'u' as int then
      match ReadHex4(t[2..6])
      case None => None
      case Some(u) => Some((u, t[6..]))
    else if |t| >= 2 && ShortEscape(t[1]).Some? then Some((ShortEscape(t[1]).value, t[2..]))
    else None
  }

  /** A string from behind its opening quote. */
  function ReadString(t: Text): (r: Option<(Text, Text)>)
    ensures r.Some? ==> |r.value.1| < |t|
    decreases |t|
  {
    if t == [] then None
    else if t[0] == '"' as int then Some(([], t[1..]))
    else
      match ReadUnit(t)
      case None => None
      case Some((u, rest)) =>
        match ReadString(rest)
        case None => None
        case Some((s, end)) => Some(([u] + s, end))
  }

  // ── values ───────────────────────────────────────────────────────────────────

  function Spelled(word: string): Text
    requires forall i :: 0 <= i < |word| ==> word[i] < 128 as char
  {
    if word == "" then [] else [word[0] as int] + Spelled(word[1..])
  }

  predicate StartsWith(t: Text, word: Text) {
    |word| <= |t| && t[..|word|] == word
  }

  function ReadValue(t: Text): (r: Option<(Json, Text)>)
    ensures r.Some? ==> |r.value.1| < |t|
    decreases |t|, 0
  {
    if t == [] then None
    else if t[0] == '"' as int then
      match ReadString(t[1..])
      case None => None
      case Some((s, rest)) => Some((JString(s), rest))
    else if t[0] == '[' as int then
      if |t| > 1 && t[1] == ']' as int then Some((JArray([]), t[2..]))
      else
        match ReadElements(t[1..])
        case None => None
        case Some((elements, rest)) => Some((JArray(elements), rest))
    else if t[0] == '{' as int then
      if |t| > 1 && t[1] == '}' as int then Some((JObject([]), t[2..]))
      else
        match ReadMembers(t[1..])
        case None => None
        case Some((members, rest)) => Some((JObject(members), rest))
    else if t[0] == 'n' as int then
      if StartsWith(t, Spelled("null")) then Some((JNull, t[4..])) else None
    else if t[0] == 't' as int then
      if StartsWith(t, Spelled("true")) then Some((JBool(true), t[4..])) else None
    else if t[0] == 'f' as int then
      if StartsWith(t, Spelled("false")) then Some((JBool(false), t[5..])) else None
    else
      match ReadNumber(t)
      case None => None
      case Some((n, rest)) => Some((JInt(n), rest))
  }

  /** At least one element, up to and with the closing bracket. */
  function ReadElements(t: Text): (r: Option<(seq<Json>, Text)>)
    ensures r.Some? ==> |r.value.1| < |t|
    decreases |t|, 1
  {
    match ReadValue(t)
    case None => None
    case Some((j, rest)) =>
      if rest != [] && rest[0] == ']' as int then Some(([j], rest[1..]))
      else if rest != [] && rest[0] == ',' as int then
        match ReadElements(rest[1..])
        case None => None
        case Some((more, end)) => Some(([j] + more, end))
      else None
  }

  /** One `"name":value`. */
  function ReadMember(t: Text): (r: Option<(Member, Text)>)
    ensures r.Some? ==> |r.value.1| < |t|
    decreases |t|, 1
  {
    if t == [] || t[0] != '"' as int then None
    else
      match ReadString(t[1..])
      case None => None
      case Some((name, rest)) =>
        if rest == [] || rest[0] != ':' as int then None
        else
          match ReadValue(rest[1..])
          case None => None
          case Some((j, end)) => Some((Member(name, j), end))
  }

  /** At least one member, up to and with the closing brace. */
  function ReadMembers(t: Text): (r: Option<(seq<Member>, Text)>)
    ensures r.Some? ==> |r.value.1| < |t|
    decreases |t|, 2
  {
    match ReadMember(t)
    case None => None
    case Some((m, rest)) =>
      if rest != [] && rest[0] == '}' as int then Some(([m], rest[1..]))
      else if rest != [] && rest[0] == ',' as int then
        match ReadMembers(rest[1..])
        case None => None
        case Some((more, end)) => Some(([m] + more, end))
      else None
  }

  /** A whole text. */
  function Read(t: Text): Option<Json> {
    match ReadValue(t)
    case None => None
    case Some((j, rest)) => if rest == [] then Some(j) else None
  }

  // ── numbers read back ────────────────────────────────────────────────────────

  lemma {:induction false} DigitsStandFor(n: nat)
    ensures NumberOf(Digits(n)) == n
    ensures |Digits(n)| > 1 ==> Digits(n)[0] != '0' as int
    ensures n > 0 ==> Digits(n)[0] != '0' as int
  {
    if n >= 10 {
      DigitsStandFor(n / 10);
      assert Digits(n)[..|Digits(n)| - 1] == Digits(n / 10);
    }
  }

  lemma {:induction false} RunOfDigits(a: Text, r: Text)
    requires AllDigits(a) && (r == [] || !IsDigit(r[0]))
    ensures DigitRun(a + r) == |a|
    decreases |a|
  {
    if a == [] {
      assert a + r == r;
    } else {
      assert (a + r)[1..] == a[1..] + r;
      RunOfDigits(a[1..], r);
    }
  }

  lemma NaturalReads(n: nat, r: Text)
    requires r == [] || !IsDigit(r[0])
    ensures ReadNatural(Digits(n) + r) == Some((n, r))
  {
    var a := Digits(n);
    DigitsStandFor(n);
    RunOfDigits(a, r);
    assert (a + r)[..|a|] == a && (a + r)[|a|..] == r && (a + r)[0] == a[0];
  }

  lemma NumberReads(n: int, r: Text)
    requires r == [] || !IsDigit(r[0])
    ensures ReadNumber(Decimal(n) + r) == Some((n, r))
  {
    if n < 0 {
      assert Decimal(n) + r == [MINUS] + (Digits(-n) + r);
      assert ([MINUS] + (Digits(-n) + r))[1..] == Digits(-n) + r;
      NaturalReads(-n, r);
    } else {
      NaturalReads(n, r);
      assert (Digits(n) + r)[0] == Digits(n)[0];
    }
  }

  // ── strings read back ────────────────────────────────────────────────────────

  lemma Hex4Reads(u: Unit)
    ensures ReadHex4([HexDigit(u / 0x1000), HexDigit(u / 0x100 % 16), HexDigit(u / 0x10 % 16), HexDigit(u % 16)])
            == Some(u)
  {
    Nibbles(u);
  }

  lemma Nibbles(u: Unit)
    ensures 4096 * (u / 0x1000) + 256 * (u / 0x100 % 16) + 16 * (u / 0x10 % 16) + u % 16 == u
  {
    assert u / 0x100 == u / 0x1000 * 16 + u / 0x100 % 16;
    assert u / 0x10 == u / 0x100 * 16 + u / 0x10 % 16;
  }

  lemma EscapeReads(u: Unit, r: Text)
    ensures ReadUnit(Escape(u) + r) == Some((u, r))
  {
    var t := Escape(u) + r;
    assert t[..|Escape(u)|] == Escape(u) && t[|Escape(u)|..] == r;
    if |Escape(u)| == 6 {
      assert t[2..6] == Escape(u)[2..6];
      Hex4Reads(u);
    }
  }

  lemma RawReads(u: Unit, r: Text)
    requires Lead(u) || Trail(u)
    ensures ReadUnit([u] + r) == Some((u, r))
  {
    assert ([u] + r)[1..] == r;
  }

  lemma OneMoreUnit(t: Text, u: Unit, rest: Text, s: Text, end: Text)
    requires ReadUnit(t) == Some((u, rest)) && ReadString(rest) == Some((s, end))
    ensures ReadString(t) == Some(([u] + s, end))
  {
  }

  lemma PairReads(a: Unit, b: Unit, rest: Text, s: Text, end: Text)
    requires Lead(a) && Trail(b) && ReadString(rest) == Some((s, end))
    ensures ReadString([a, b] + rest) == Some(([a, b] + s, end))
  {
    RawReads(b, rest);
    OneMoreUnit([b] + rest, b, rest, s, end);
    RawReads(a, [b] + rest);
    OneMoreUnit([a] + ([b] + rest), a, [b] + rest, [b] + s, end);
    assert [a, b] + rest == [a] + ([b] + rest) && [a, b] + s == [a] + ([b] + s);
  }

  lemma EndReads(r: Text)
    ensures ReadString([QUOTE] + r) == Some(([], r))
  {
    assert ([QUOTE] + r)[1..] == r;
  }

  lemma UnitReads(u: Unit, rest: Text, s: Text, end: Text)
    requires ReadString(rest) == Some((s, end))
    ensures ReadString(Escape(u) + rest) == Some(([u] + s, end))
  {
    EscapeReads(u, rest);
    OneMoreUnit(Escape(u) + rest, u, rest, s, end);
  }

  lemma {:induction false} StringReads(s: Text, r: Text)
    ensures ReadString(Escaped(s) + ([QUOTE] + r)) == Some((s, r))
    decreases |s|
  {
    var end := [QUOTE] + r;
    if s == [] {
      assert Escaped(s) + end == end;
      EndReads(r);
    } else if Pair(s) {
      StringReads(s[2..], r);
      PairReads(s[0], s[1], Escaped(s[2..]) + end, s[2..], r);
      Regroup([s[0], s[1]], Escaped(s[2..]), end);
      assert [s[0], s[1]] + s[2..] == s;
    } else {
      StringReads(s[1..], r);
      UnitReads(s[0], Escaped(s[1..]) + end, s[1..], r);
      Regroup(Escape(s[0]), Escaped(s[1..]), end);
      assert [s[0]] + s[1..] == s;
    }
  }

  lemma QuotedReads(s: Text, r: Text)
    ensures (Quoted(s) + r)[0] == QUOTE && ReadString((Quoted(s) + r)[1..]) == Some((s, r))
  {
    QuotedSplit(s, r);
    assert ([QUOTE] + (Escaped(s) + ([QUOTE] + r)))[1..] == Escaped(s) + ([QUOTE] + r);
    StringReads(s, r);
  }

  /** How a unit is written, which reading back does not fix: raw unless it is a control, a quote, a
      backslash or a surrogate, in two characters if there is such an escape, and in lower-case hex. */
  lemma EscapeForm(u: Unit)
    ensures Escape(u) == [u] <==> u >= 0x20 && u != QUOTE && u != BACKSLASH && !Lead(u) && !Trail(u)
    ensures |Escape(u)| == 2 <==> exists c: Unit :: c != '/' as int && ShortEscape(c) == Some(u)
    ensures |Escape(u)| != 1 && |Escape(u)| != 2 ==> |Escape(u)| == 6
    ensures forall i :: 0 <= i < |Escape(u)| && |Escape(u)| == 6 ==> !('A' as int <= Escape(u)[i] <= 'F' as int)
  {
    if |Escape(u)| == 2 {
      assert ShortEscape(Escape(u)[1]) == Some(u);
    }
  }

  // ── the tree of a value ──────────────────────────────────────────────────────

  function Tree(v: Value): Json
    decreases v, 1
  {
    match v
    case Null => JNull
    case Undefined => JNull
    case NonFinite => JNull
    case Bool(b) => JBool(b)
    case Int(n) => JInt(n)
    case Str(s) => JString(s)
    case BigInt(n) => JString(Decimal(n))
    case Uint8Array(bytes) => JString(BareHex(bytes))
    case Array(elements) => JArray(Trees(v, elements))
    case Object(fields) => JObject(MemberTrees(v, SortedVisible(fields)))
  }

  function Trees(context: Value, elements: seq<Value>): (r: seq<Json>)
    requires forall i :: 0 <= i < |elements| ==> elements[i] < context
    ensures |r| == |elements| && forall i :: 0 <= i < |r| ==> r[i] == Tree(elements[i])
    decreases context, 0, |elements|
  {
    if elements == [] then [] else [Tree(elements[0])] + Trees(context, elements[1..])
  }

  function MemberTrees(context: Value, fields: seq<Field>): (r: seq<Member>)
    requires forall i :: 0 <= i < |fields| ==> fields[i].value < context
    ensures |r| == |fields| && forall i :: 0 <= i < |r| ==> r[i] == Member(fields[i].key, Tree(fields[i].value))
    decreases context, 0, |fields|
  {
    if fields == [] then []
    else [Member(fields[0].key, Tree(fields[0].value))] + MemberTrees(context, fields[1..])
  }

  // ── values read back ─────────────────────────────────────────────────────────

  lemma Literals()
    ensures Spelled("null") == NULL_TEXT && Spelled("true") == TRUE_TEXT && Spelled("false") == FALSE_TEXT
  {
  }

  lemma LiteralReads(v: Value, r: Text)
    requires v.Null? || v.Undefined? || v.Bool?
    ensures ReadValue(Serialize(v) + r) == Some((Tree(v), r))
  {
    Literals();
    var word := Serialize(v);
    assert (word + r)[..|word|] == word && (word + r)[|word|..] == r && (word + r)[0] == word[0];
  }

  lemma IntReads(n: int, r: Text)
    requires Ends(r)
    ensures ReadValue(Decimal(n) + r) == Some((JInt(n), r))
  {
    DecimalStart(n, r);
    NumberReads(n, r);
  }

  lemma StringValueReads(s: Text, r: Text)
    ensures ReadValue(Quoted(s) + r) == Some((JString(s), r))
  {
    QuotedReads(s, r);
  }

  /** The text of any value in front of an end reads back as its tree, and nothing is left over. */
  lemma {:induction false} ValueReads(v: Value, r: Text)
    requires Finite(v) && WellFormed(v) && Ends(r)
    ensures ReadValue(Serialize(v) + r) == Some((Tree(v), r))
    decreases v, 3
  {
    match v
    case Int(n) => IntReads(n, r);
    case Str(s) => StringValueReads(s, r);
    case BigInt(n) => StringValueReads(Decimal(n), r);
    case Uint8Array(bytes) => StringValueReads(BareHex(bytes), r);
    case Array(_) => ArrayReads(v, r);
    case Object(_) => ObjectReads(v, r);
    case _ => LiteralReads(v, r);
  }

  lemma OpenBracket(open: Unit, inner: Text)
    ensures ([open] + inner)[0] == open && ([open] + inner)[1..] == inner
  {
  }

  lemma ArrayReads(v: Value, r: Text)
    requires v.Array? && Finite(v) && WellFormed(v)
    ensures ReadValue(Serialize(v) + r) == Some((Tree(v), r))
    decreases v, 2
  {
    var body := Join(ElementTexts(v, v.elements)) + ([CLOSE_ARRAY] + r);
    Bracketed(OPEN_ARRAY, Join(ElementTexts(v, v.elements)), CLOSE_ARRAY, r);
    OpenBracket(OPEN_ARRAY, body);
    ElementsStart(v, v.elements, [CLOSE_ARRAY] + r);
    if v.elements == [] {
      assert body == [CLOSE_ARRAY] + r;
      assert ([OPEN_ARRAY] + body)[2..] == r;
    } else {
      ElementsRead(v, v.elements, r);
    }
  }

  lemma MoreElements(t: Text, j: Json, rest: Text, more: seq<Json>, end: Text)
    requires ReadValue(t) == Some((j, [COMMA] + rest)) && ReadElements(rest) == Some((more, end))
    ensures ReadElements(t) == Some(([j] + more, end))
  {
    OpenBracket(COMMA, rest);
  }

  lemma LastElement(t: Text, j: Json, r: Text)
    requires ReadValue(t) == Some((j, [CLOSE_ARRAY] + r))
    ensures ReadElements(t) == Some(([j], r))
  {
    OpenBracket(CLOSE_ARRAY, r);
  }

  lemma TreesStep(v: Value, xs: seq<Value>)
    requires xs != [] && forall i :: 0 <= i < |xs| ==> xs[i] < v
    ensures Trees(v, xs) == [Tree(xs[0])] + Trees(v, xs[1..]) && (|xs| == 1 ==> Trees(v, xs) == [Tree(xs[0])])
  {
  }

  lemma {:induction false} ElementsRead(v: Value, xs: seq<Value>, r: Text)
    requires Below(v, xs) && xs != []
    ensures ReadElements(Join(ElementTexts(v, xs)) + ([CLOSE_ARRAY] + r)) == Some((Trees(v, xs), r))
    decreases v, 0, |xs|
  {
    var end, texts := [CLOSE_ARRAY] + r, ElementTexts(v, xs);
    var text, first := Join(texts) + end, Tree(xs[0]);
    ElementsStart(v, xs, end);
    ValueReads(xs[0], Tail(texts, end));
    TreesStep(v, xs);
    if |xs| == 1 {
      LastElement(text, first, r);
    } else {
      var more := Trees(v, xs[1..]);
      ElementsRead(v, xs[1..], r);
      MoreElements(text, first, Join(texts[1..]) + end, more, r);
    }
  }

  lemma ObjectReads(v: Value, r: Text)
    requires v.Object? && Finite(v) && WellFormed(v)
    ensures ReadValue(Serialize(v) + r) == Some((Tree(v), r))
    decreases v, 2
  {
    var fs := SortedVisible(v.fields);
    SortedFieldsBelow(v);
    ObjectBody(v, r);
    var body := Join(Parts(v, fs)) + ([CLOSE_OBJECT] + r);
    OpenBracket(OPEN_OBJECT, body);
    PartsStart(v, fs, [CLOSE_OBJECT] + r);
    if fs == [] {
      assert ([OPEN_OBJECT] + body)[2..] == r;
    } else {
      MembersRead(v, fs, r);
    }
  }

  lemma MemberReads(f: Field, r: Text)
    requires Finite(f.value) && WellFormed(f.value) && Ends(r)
    ensures ReadMember(Part(f) + r) == Some((Member(f.key, Tree(f.value)), r))
    decreases f.value, 4
  {
    var rest := Serialize(f.value) + r;
    PartSplit(f, r);
    QuotedReads(f.key, [COLON] + rest);
    OpenBracket(COLON, rest);
    ValueReads(f.value, r);
  }

  lemma MoreMembers(t: Text, m: Member, rest: Text, more: seq<Member>, end: Text)
    requires ReadMember(t) == Some((m, [COMMA] + rest)) && ReadMembers(rest) == Some((more, end))
    ensures ReadMembers(t) == Some(([m] + more, end))
  {
    OpenBracket(COMMA, rest);
  }

  lemma LastMember(t: Text, m: Member, r: Text)
    requires ReadMember(t) == Some((m, [CLOSE_OBJECT] + r))
    ensures ReadMembers(t) == Some(([m], r))
  {
    OpenBracket(CLOSE_OBJECT, r);
  }

  lemma MemberTreesStep(v: Value, fs: seq<Field>)
    requires fs != [] && forall i :: 0 <= i < |fs| ==> fs[i].value < v
    ensures var m := Member(fs[0].key, Tree(fs[0].value));
            MemberTrees(v, fs) == [m] + MemberTrees(v, fs[1..]) && (|fs| == 1 ==> MemberTrees(v, fs) == [m])
  {
  }

  lemma {:induction false} MembersRead(v: Value, fs: seq<Field>, r: Text)
    requires FieldsBelow(v, fs) && fs != []
    ensures ReadMembers(Join(Parts(v, fs)) + ([CLOSE_OBJECT] + r)) == Some((MemberTrees(v, fs), r))
    decreases v, 0, |fs|
  {
    var end, texts := [CLOSE_OBJECT] + r, Parts(v, fs);
    var text, m := Join(texts) + end, Member(fs[0].key, Tree(fs[0].value));
    PartsStart(v, fs, end);
    MemberReads(fs[0], Tail(texts, end));
    MemberTreesStep(v, fs);
    if |fs| == 1 {
      LastMember(text, m, r);
    } else {
      var more := MemberTrees(v, fs[1..]);
      MembersRead(v, fs[1..], r);
      MoreMembers(text, m, Join(texts[1..]) + end, more, r);
    }
  }

  // ── what was read ────────────────────────────────────────────────────────────

  /** Two lower-case hex digits per byte. */
  function ReadBytes(t: Text): Option<seq<Byte>> {
    if t == [] then Some([])
    else if |t| == 1 || HexValue(t[0]).None? || HexValue(t[1]).None? then None
    else if 'A' as int <= t[0] <= 'F' as int || 'A' as int <= t[1] <= 'F' as int then None
    else
      match ReadBytes(t[2..])
      case None => None
      case Some(bytes) => Some([16 * HexValue(t[0]).value + HexValue(t[1]).value] + bytes)
  }

  lemma {:induction false} BytesRead(bytes: seq<Byte>, more: seq<Byte>, tail: Text)
    requires ReadBytes(tail) == Some(more)
    ensures ReadBytes(BareHex(bytes) + tail) == Some(bytes + more)
    decreases |bytes|
  {
    if bytes == [] {
      assert BareHex(bytes) + tail == tail && bytes + more == more;
    } else {
      var init, b := bytes[..|bytes| - 1], bytes[|bytes| - 1];
      assert (HexPair(b) + tail)[2..] == tail;
      assert ReadBytes(HexPair(b) + tail) == Some([b] + more);
      BytesRead(init, [b] + more, HexPair(b) + tail);
      Regroup(BareHex(init), HexPair(b), tail);
      assert init + ([b] + more) == bytes + more;
    }
  }

  lemma HexReads(bytes: seq<Byte>)
    ensures ReadBytes(BareHex(bytes)) == Some(bytes)
  {
    BytesRead(bytes, [], []);
    assert BareHex(bytes) + [] == BareHex(bytes) && bytes + [] == bytes;
  }

  lemma BigIntReads(n: int)
    ensures ReadNumber(Decimal(n)) == Some((n, []))
  {
    NumberReads(n, []);
    assert Decimal(n) + [] == Decimal(n);
  }

  /** Before in the order of code units: a proper prefix, or the first difference is smaller. */
  ghost predicate Before(a: Text, b: Text) {
    exists k: nat :: k <= |a| && k < |b| && a[..k] == b[..k] && (k == |a| || a[k] < b[k])
  }

  lemma {:induction false} LessIsBefore(a: Text, b: Text)
    requires Less(a, b)
    ensures Before(a, b)
  {
    if a != [] && a[0] == b[0] {
      LessIsBefore(a[1..], b[1..]);
      var k: nat :| k <= |a[1..]| && k < |b[1..]| && a[1..][..k] == b[1..][..k]
        && (k == |a[1..]| || a[1..][k] < b[1..][k]);
      assert a[..k + 1] == [a[0]] + a[1..][..k] && b[..k + 1] == [b[0]] + b[1..][..k];
      assert k + 1 <= |a| && k + 1 < |b| && a[..k + 1] == b[..k + 1] && (k + 1 == |a| || a[k + 1] < b[k + 1]);
    } else {
      assert a[..0] == b[..0];
    }
  }

  /** The members are the defined fields, each once, under ascending names. */
  ghost predicate Lists(members: seq<Member>, fields: seq<Field>) {
    && (forall i, k :: 0 <= i < k < |members| ==> Before(members[i].name, members[k].name))
    && (forall i :: 0 <= i < |fields| && !fields[i].value.Undefined? ==> Named(members, fields[i].key))
    && (forall k :: 0 <= k < |members| ==> Defined(fields, members[k].name))
  }

  ghost predicate Named(members: seq<Member>, name: Text) {
    exists k :: 0 <= k < |members| && members[k].name == name
  }

  ghost predicate Defined(fields: seq<Field>, key: Text) {
    exists i :: 0 <= i < |fields| && fields[i].key == key && !fields[i].value.Undefined?
  }

  /** What a value is in JSON: undefined elements are null, bigints and bytes are strings that read as the
      number and the bytes, an object is its defined fields in the order of their keys. */
  ghost predicate Denotes(j: Json, v: Value)
    decreases v, 1
  {
    match v
    case Null => j.JNull?
    case Undefined => j.JNull?
    case NonFinite => false
    case Bool(b) => j == JBool(b)
    case Int(n) => j == JInt(n)
    case Str(s) => j == JString(s)
    case BigInt(n) => j.JString? && ReadNumber(j.s) == Some((n, []))
    case Uint8Array(bytes) => j.JString? && ReadBytes(j.s) == Some(bytes)
    case Array(elements) =>
      j.JArray? && |j.elements| == |elements|
      && forall i :: 0 <= i < |elements| ==> Denotes(j.elements[i], elements[i])
    case Object(fields) => j.JObject? && Lists(j.members, fields) && ValuesDenoted(v, j.members)
  }

  /** A member has the value of the field of its name. */
  ghost predicate ValuesDenoted(v: Value, members: seq<Member>)
    requires v.Object?
    decreases v, 0
  {
    forall i, k :: 0 <= i < |v.fields| && 0 <= k < |members| && v.fields[i].key == members[k].name ==>
      Denotes(members[k].value, v.fields[i].value)
  }

  lemma {:induction false} TreeDenotes(v: Value)
    requires Finite(v) && WellFormed(v)
    ensures Denotes(Tree(v), v)
    decreases v, 1
  {
    match v
    case BigInt(n) => BigIntReads(n);
    case Uint8Array(bytes) => HexReads(bytes);
    case Array(elements) =>
      forall i | 0 <= i < |elements|
        ensures Denotes(Tree(elements[i]), elements[i])
      {
        TreeDenotes(elements[i]);
      }
    case Object(fields) =>
      MembersListed(v, fields, Tree(v).members);
      MembersDenoted(v);
    case _ =>
  }

  lemma MembersListed(v: Value, fields: seq<Field>, members: seq<Member>)
    requires v.Object? && v.fields == fields && DistinctKeys(fields) && members == Tree(v).members
    ensures Lists(members, fields)
  {
    var fs := SortedVisible(fields);
    SortedVisibleAscending(fields);
    forall i, k | 0 <= i < k < |members|
      ensures Before(members[i].name, members[k].name)
    {
      LessIsBefore(fs[i].key, fs[k].key);
    }
    forall i | 0 <= i < |fields| && !fields[i].value.Undefined?
      ensures Named(members, fields[i].key)
    {
      assert fields[i] in fs;
      var k :| 0 <= k < |fs| && fs[k] == fields[i];
      assert members[k].name == fields[i].key;
    }
    forall k | 0 <= k < |members|
      ensures Defined(fields, members[k].name)
    {
      assert fs[k] in fields;
      var i :| 0 <= i < |fields| && fields[i] == fs[k];
      assert fields[i].key == members[k].name;
    }
  }

  lemma MembersDenoted(v: Value)
    requires v.Object? && Finite(v) && WellFormed(v)
    ensures ValuesDenoted(v, Tree(v).members)
    decreases v, 0
  {
    var fs, members := SortedVisible(v.fields), Tree(v).members;
    forall i, k | 0 <= i < |v.fields| && 0 <= k < |members| && v.fields[i].key == members[k].name
      ensures Denotes(members[k].value, v.fields[i].value)
    {
      SameField(v, i, k);
      TreeDenotes(v.fields[i].value);
    }
  }

  lemma SameField(v: Value, i: nat, k: nat)
    requires v.Object? && DistinctKeys(v.fields) && i < |v.fields| && k < |Tree(v).members|
    requires v.fields[i].key == Tree(v).members[k].name
    ensures Tree(v).members[k].value == Tree(v.fields[i].value)
  {
    var fs := SortedVisible(v.fields);
    assert fs[k] in v.fields;
    var x :| 0 <= x < |v.fields| && v.fields[x] == fs[k];
    assert x == i;
  }

  /** A read text up to the order of its members. */
  function Sense(j: Json): Meaning
    decreases j, 1
  {
    match j
    case JNull => MNull
    case JBool(b) => MBool(b)
    case JInt(n) => MInt(n)
    case JString(s) => MStr(s)
    case JArray(elements) => MArray(Senses(j, elements))
    case JObject(members) => MObject(SenseTable(j, members))
  }

  function Senses(context: Json, elements: seq<Json>): (r: seq<Meaning>)
    requires forall i :: 0 <= i < |elements| ==> elements[i] < context
    ensures |r| == |elements|
    decreases context, 0, |elements|
  {
    if elements == [] then [] else [Sense(elements[0])] + Senses(context, elements[1..])
  }

  function SenseTable(context: Json, members: seq<Member>): map<Text, Meaning>
    requires forall i :: 0 <= i < |members| ==> members[i].value < context
    decreases context, 0, |members|
  {
    if members == [] then map[]
    else SenseTable(context, members[1..])[members[0].name := Sense(members[0].value)]
  }

  lemma {:induction false} SenseOfTree(v: Value)
    requires Finite(v) && WellFormed(v)
    ensures Sense(Tree(v)) == MeaningOf(v)
    decreases v, 1
  {
    match v
    case Array(elements) => SenseOfTrees(v, elements, Tree(v));
    case Object(fields) =>
      SortedFieldsBelow(v);
      SenseOfMembers(v, SortedVisible(fields), Tree(v));
      SortingKeepsTable(v, fields);
    case _ =>
  }

  lemma {:induction false} SenseOfTrees(v: Value, xs: seq<Value>, context: Json)
    requires Below(v, xs) && forall i :: 0 <= i < |xs| ==> Trees(v, xs)[i] < context
    ensures Senses(context, Trees(v, xs)) == Meanings(v, xs)
    decreases v, 0, |xs|
  {
    if xs != [] {
      TreesStep(v, xs);
      SenseOfTree(xs[0]);
      SenseOfTrees(v, xs[1..], context);
      assert Trees(v, xs)[1..] == Trees(v, xs[1..]);
    }
  }

  lemma {:induction false} SenseOfMembers(v: Value, fs: seq<Field>, context: Json)
    requires FieldsBelow(v, fs) && forall i :: 0 <= i < |fs| ==> MemberTrees(v, fs)[i].value < context
    ensures SenseTable(context, MemberTrees(v, fs)) == Table(v, fs)
    decreases v, 0, |fs|
  {
    if fs != [] {
      MemberTreesStep(v, fs);
      SenseOfTree(fs[0].value);
      SenseOfMembers(v, fs[1..], context);
      assert MemberTrees(v, fs)[1..] == MemberTrees(v, fs[1..]);
    }
  }

  /** The canonical text is JSON for the value: read by itself it gives, to its last unit, a tree that
      denotes the value and has its meaning, with the names of every object ascending. */
  lemma CanonicalTextReads(v: Value) returns (j: Json)
    requires WellFormed(v) && CanonicalText(v).Serialized?
    ensures Read(CanonicalText(v).text) == Some(j) && Denotes(j, v) && Sense(j) == MeaningOf(v)
  {
    j := Tree(v);
    ValueReads(v, []);
    assert Serialize(v) + [] == Serialize(v);
    TreeDenotes(v);
    SenseOfTree(v);
  }

  lemma {:induction false} DenotedIsFinite(j: Json, v: Value)
    requires Denotes(j, v)
    ensures Finite(v)
    decreases v
  {
    match v
    case Array(elements) =>
      forall e | e in elements
        ensures Finite(e)
      {
        var i :| 0 <= i < |elements| && elements[i] == e;
        DenotedIsFinite(j.elements[i], e);
      }
    case Object(fields) =>
      forall f | f in fields
        ensures Finite(f.value)
      {
        if !f.value.Undefined? {
          var i :| 0 <= i < |fields| && fields[i] == f;
          assert Named(j.members, fields[i].key);
          var k :| 0 <= k < |j.members| && j.members[k].name == fields[i].key;
          DenotedIsFinite(j.members[k].value, f.value);
        }
      }
    case _ =>
  }

  /** A text is produced exactly for values that JSON can denote; undefined is one only inside another. */
  lemma SerializedIff(v: Value)
    requires WellFormed(v)
    ensures CanonicalText(v).Serialized? <==> !v.Undefined? && exists j :: Denotes(j, v)
  {
    if Finite(v) {
      TreeDenotes(v);
      var j := Tree(v);
      assert Denotes(j, v);
    } else if exists j :: Denotes(j, v) {
      var j :| Denotes(j, v);
      DenotedIsFinite(j, v);
    }
  }

  // ── what a text identifies ───────────────────────────────────────────────────

  lemma QuotedInjective(s: Text, w: Text, r: Text, t: Text)
    requires Quoted(s) + r == Quoted(w) + t
    ensures s == w && r == t
  {
    QuotedReads(s, r);
    QuotedReads(w, t);
  }

  /** Equal texts before an end come from values of equal meaning, and nothing is left over. */
  lemma SerializeInjective(v: Value, w: Value, r: Text, t: Text)
    requires Finite(v) && Finite(w) && WellFormed(v) && WellFormed(w)
    requires Ends(r) && Ends(t) && Serialize(v) + r == Serialize(w) + t
    ensures MeaningOf(v) == MeaningOf(w) && r == t
  {
    ValueReads(v, r);
    ValueReads(w, t);
    SenseOfTree(v);
    SenseOfTree(w);
  }

  /** Two accepted values have the same canonical text exactly when they mean the same: objects as
      maps, undefined fields absent, undefined elements null. */
  lemma CanonicalTextIdentifiesMeaning(v: Value, w: Value)
    requires WellFormed(v) && WellFormed(w)
    requires CanonicalText(v).Serialized? && CanonicalText(w).Serialized?
    ensures CanonicalText(v) == CanonicalText(w) <==> MeaningOf(v) == MeaningOf(w)
  {
    if Serialize(v) == Serialize(w) {
      SerializeInjective(v, w, [], []);
    } else if MeaningOf(v) == MeaningOf(w) {
      SameMeaningSameText(v, w);
    }
  }
}
