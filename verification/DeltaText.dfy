/** The canonical text of a corpus delta, in memory and on disk, and what it identifies: the bytes that
    are hashed and signed. */
module DeltaText {
  import opened Wrappers
  import opened CanonicalJson
  import JsonReader
  import CD = CorpusDelta

  type Table = map<Text, Meaning>

  // ── objects as tables ────────────────────────────────────────────────────────

  /** The fields, in any order, hold exactly the entries of the table; a field may also be undefined. */
  ghost predicate Tabulates(fields: seq<Field>, t: Table) {
    && DistinctKeys(fields)
    && (forall i :: 0 <= i < |fields| && !fields[i].value.Undefined? ==>
          fields[i].key in t && MeaningOf(fields[i].value) == t[fields[i].key])
    && (forall k :: k in t ==> exists i :: 0 <= i < |fields| && fields[i].key == k && !fields[i].value.Undefined?)
  }

  lemma TabulatedEntry(v: Value, shown: seq<Field>, t: Table, i: nat)
    requires (forall j :: 0 <= j < |shown| ==> shown[j].value < v) && DistinctKeys(shown) && i < |shown|
    requires shown[i].key in t && MeaningOf(shown[i].value) == t[shown[i].key]
    ensures shown[i].key in CanonicalJson.Table(v, shown)
            && CanonicalJson.Table(v, shown)[shown[i].key] == t[shown[i].key]
  {
    TableValue(v, shown, i);
  }

  lemma TabulatedTable(v: Value, shown: seq<Field>, t: Table)
    requires (forall j :: 0 <= j < |shown| ==> shown[j].value < v) && DistinctKeys(shown)
    requires forall j :: 0 <= j < |shown| ==> shown[j].key in t && MeaningOf(shown[j].value) == t[shown[j].key]
    requires forall k :: k in t ==> exists j :: 0 <= j < |shown| && shown[j].key == k
    ensures CanonicalJson.Table(v, shown) == t
  {
    var table := CanonicalJson.Table(v, shown);
    forall k | k in table
      ensures k in t && t[k] == table[k]
    {
      TableKeys(v, shown, k);
      var j :| 0 <= j < |shown| && shown[j].key == k;
      TabulatedEntry(v, shown, t, j);
    }
    forall k | k in t
      ensures k in table
    {
      var j :| 0 <= j < |shown| && shown[j].key == k;
      TabulatedEntry(v, shown, t, j);
    }
    MapsEqual(table, t);
  }

  lemma TabulatedMeaning(fields: seq<Field>, t: Table)
    requires Tabulates(fields, t)
    ensures MeaningOf(Object(fields)) == MObject(t)
  {
    var v, shown := Object(fields), Visible(fields);
    VisibleDistinct(fields);
    forall j | 0 <= j < |shown|
      ensures shown[j].value < v && shown[j].key in t && MeaningOf(shown[j].value) == t[shown[j].key]
    {
      assert shown[j] in fields;
    }
    forall k | k in t
      ensures exists j :: 0 <= j < |shown| && shown[j].key == k
    {
      var i :| 0 <= i < |fields| && fields[i].key == k && !fields[i].value.Undefined?;
      assert fields[i] in shown;
      var j :| 0 <= j < |shown| && shown[j] == fields[i];
    }
    TabulatedTable(v, shown, t);
  }

  /** Exactly these keys, each once, all defined. */
  ghost predicate Exactly(fields: seq<Field>, keys: set<Text>) {
    && DistinctKeys(fields)
    && (forall i :: 0 <= i < |fields| ==> fields[i].key in keys && !fields[i].value.Undefined?)
    && (forall k :: k in keys ==> exists i :: 0 <= i < |fields| && fields[i].key == k)
  }

  lemma ExactMeaning(fields: seq<Field>, t: Table)
    requires Exactly(fields, t.Keys)
    requires forall i :: 0 <= i < |fields| ==> MeaningOf(fields[i].value) == t[fields[i].key]
    ensures MeaningOf(Object(fields)) == MObject(t)
  {
    TabulatedMeaning(fields, t);
  }

  /** An accepted value: no non-finite number in it, each object key once. */
  ghost predicate Sound(v: Value) {
    Finite(v) && WellFormed(v)
  }

  lemma SoundObject(fields: seq<Field>)
    requires DistinctKeys(fields) && forall i :: 0 <= i < |fields| ==> Sound(fields[i].value)
    ensures Sound(Object(fields))
  {
    assert forall f :: f in fields ==> Sound(f.value);
  }

  lemma SoundArray(elements: seq<Value>)
    requires forall i :: 0 <= i < |elements| ==> Sound(elements[i])
    ensures Sound(Array(elements))
  {
    assert forall e :: e in elements ==> Sound(e);
  }

  // ── bytes and tables ─────────────────────────────────────────────────────────

  /** In memory byte fields are byte arrays; in the file they are hex strings. */
  datatype Medium = Memory | Disk

  ghost predicate ShowsHex(v: Value, hex: Text, medium: Medium) {
    match medium
    case Memory => v.Uint8Array? && BareHex(v.bytes) == hex
    case Disk => v == Str(hex)
  }

  /** For the hex of given bytes the in-memory value is those bytes. */
  lemma ShowsBytes(v: Value, bytes: seq<Byte>)
    ensures ShowsHex(v, BareHex(bytes), Memory) <==> v == Uint8Array(bytes)
  {
    CD.UnhexOfHex(bytes);
    if v.Uint8Array? {
      CD.UnhexOfHex(v.bytes);
    }
  }

  lemma HexMeaning(v: Value, hex: Text, medium: Medium)
    requires ShowsHex(v, hex, medium)
    ensures MeaningOf(v) == MStr(hex) && Sound(v)
  {
  }

  ghost predicate ShowsTable(v: Value, entries: map<Text, Text>, medium: Medium) {
    && v.Object? && Exactly(v.fields, entries.Keys)
    && forall i :: 0 <= i < |v.fields| ==> ShowsHex(v.fields[i].value, entries[v.fields[i].key], medium)
  }

  function Strings(entries: map<Text, Text>): Table {
    map k | k in entries :: MStr(entries[k])
  }

  lemma TableMeaning(v: Value, entries: map<Text, Text>, medium: Medium)
    requires ShowsTable(v, entries, medium)
    ensures MeaningOf(v) == MObject(Strings(entries)) && Sound(v)
  {
    forall i | 0 <= i < |v.fields|
      ensures MeaningOf(v.fields[i].value) == Strings(entries)[v.fields[i].key] && Sound(v.fields[i].value)
    {
      HexMeaning(v.fields[i].value, entries[v.fields[i].key], medium);
    }
    assert Strings(entries).Keys == entries.Keys;
    ExactMeaning(v.fields, Strings(entries));
    SoundObject(v.fields);
  }

  /** An embedding table has one canonical text, as a Map of bytes in memory or an object of hex strings
      in the file, whatever order its keys are listed in. */
  lemma TableText(v: Value, w: Value, entries: map<Text, Text>, a: Medium, b: Medium)
    requires ShowsTable(v, entries, a) && ShowsTable(w, entries, b)
    ensures CanonicalText(v) == CanonicalText(w)
  {
    TableMeaning(v, entries, a);
    TableMeaning(w, entries, b);
    JsonReader.CanonicalTextIdentifiesMeaning(v, w);
  }

  // ── the fixed keys ───────────────────────────────────────────────────────────

  const MODEL_ID: Text := CD.Name("modelId")
  const REVISION: Text := CD.Name("revision")
  const LAYOUT: Text := CD.Name("layout")
  const RUNTIME: Text := CD.Name("runtime")
  const BATCH_HASH: Text := CD.Name("batchHash")
  const QUERY: Text := CD.Name("query")
  const PER_TRUTH: Text := CD.Name("perTruth")
  const PER_NEGATIVE: Text := CD.Name("perNegative")
  const ID: Text := CD.Name("id")
  const SPLIT: Text := CD.Name("split")
  const EMBEDDINGS: Text := CD.Name("embeddings")
  const SCHEMA_VERSION: Text := CD.Name("schemaVersion")
  const PREVIOUS_ROOT: Text := CD.Name("previousRoot")
  const NEXT_ROOT: Text := CD.Name("nextRoot")
  const ADDED_IDS: Text := CD.Name("addedIds")
  const ADDED_RECORDS: Text := CD.Name("addedRecords")
  const REMOVED_IDS: Text := CD.Name("removedIds")
  const PROVENANCE: Text := CD.Name("labelingProvenance")
  const BI_ENCODER: Text := CD.Name("biEncoder")
  const EPOCH: Text := CD.Name("epoch")
  const CORPUS_EPOCH: Text := CD.Name("corpusEpoch")
  const GENERATED_AT: Text := CD.Name("generatedAt")
  const SIGNATURE: Text := CD.Name("signature")
  const SIGNER_KEY_ID: Text := CD.Name("signerKeyId")

  // ── provenance and bi-encoder ────────────────────────────────────────────────

  const PROVENANCE_KEYS: set<Text> := {MODEL_ID, REVISION, RUNTIME, BATCH_HASH}

  function ProvenanceText(p: CD.Provenance, key: Text): Text {
    if key == MODEL_ID then p.modelId else if key == REVISION then p.revision
    else if key == RUNTIME then p.runtime else p.batchHash
  }

  ghost predicate ShowsProvenance(v: Value, p: CD.Provenance) {
    && v.Object? && Exactly(v.fields, PROVENANCE_KEYS)
    && forall i :: 0 <= i < |v.fields| ==> v.fields[i].value == Str(ProvenanceText(p, v.fields[i].key))
  }

  function ProvenanceTable(p: CD.Provenance): Table {
    map k | k in PROVENANCE_KEYS :: MStr(ProvenanceText(p, k))
  }

  lemma ProvenanceMeaning(v: Value, p: CD.Provenance)
    requires ShowsProvenance(v, p)
    ensures MeaningOf(v) == MObject(ProvenanceTable(p)) && Sound(v)
  {
    forall i | 0 <= i < |v.fields|
      ensures MeaningOf(v.fields[i].value) == ProvenanceTable(p)[v.fields[i].key] && Sound(v.fields[i].value)
    {
      assert v.fields[i].value == Str(ProvenanceText(p, v.fields[i].key));
    }
    assert ProvenanceTable(p).Keys == PROVENANCE_KEYS;
    ExactMeaning(v.fields, ProvenanceTable(p));
    SoundObject(v.fields);
  }

  lemma ProvenanceDetermined(p: CD.Provenance, q: CD.Provenance)
    requires ProvenanceTable(p) == ProvenanceTable(q)
    ensures p == q
  {
    assert MODEL_ID[0] != RUNTIME[0];
    assert ProvenanceTable(p)[MODEL_ID] == ProvenanceTable(q)[MODEL_ID];
    assert ProvenanceTable(p)[REVISION] == ProvenanceTable(q)[REVISION];
    assert ProvenanceTable(p)[RUNTIME] == ProvenanceTable(q)[RUNTIME];
    assert ProvenanceTable(p)[BATCH_HASH] == ProvenanceTable(q)[BATCH_HASH];
  }

  const BI_ENCODER_KEYS: set<Text> := {MODEL_ID, REVISION, LAYOUT}

  ghost predicate ShowsBiEncoder(v: Value, b: CD.BiEncoder) {
    && v.Object? && Exactly(v.fields, BI_ENCODER_KEYS)
    && forall i :: 0 <= i < |v.fields| ==> v.fields[i].value == BiEncoderValue(b, v.fields[i].key)
  }

  function BiEncoderValue(b: CD.BiEncoder, key: Text): Value {
    if key == MODEL_ID then Str(b.modelId) else if key == REVISION then Str(b.revision) else b.layout
  }

  function BiEncoderTable(b: CD.BiEncoder): Table {
    map k | k in BI_ENCODER_KEYS :: MeaningOf(BiEncoderValue(b, k))
  }

  lemma BiEncoderMeaning(v: Value, b: CD.BiEncoder)
    requires ShowsBiEncoder(v, b) && Sound(b.layout)
    ensures MeaningOf(v) == MObject(BiEncoderTable(b)) && Sound(v)
  {
    forall i | 0 <= i < |v.fields|
      ensures MeaningOf(v.fields[i].value) == BiEncoderTable(b)[v.fields[i].key] && Sound(v.fields[i].value)
    {
      assert v.fields[i].value == BiEncoderValue(b, v.fields[i].key);
    }
    assert BiEncoderTable(b).Keys == BI_ENCODER_KEYS;
    ExactMeaning(v.fields, BiEncoderTable(b));
    SoundObject(v.fields);
  }

  ghost predicate SameBiEncoder(b: CD.BiEncoder, c: CD.BiEncoder) {
    b.modelId == c.modelId && b.revision == c.revision && MeaningOf(b.layout) == MeaningOf(c.layout)
  }

  lemma BiEncoderDetermined(b: CD.BiEncoder, c: CD.BiEncoder)
    ensures BiEncoderTable(b) == BiEncoderTable(c) <==> SameBiEncoder(b, c)
  {
    assert |MODEL_ID| == 7 && |REVISION| == 8 && |LAYOUT| == 6;
    if BiEncoderTable(b) == BiEncoderTable(c) {
      assert BiEncoderTable(b)[MODEL_ID] == BiEncoderTable(c)[MODEL_ID];
      assert BiEncoderTable(b)[REVISION] == BiEncoderTable(c)[REVISION];
      assert BiEncoderTable(b)[LAYOUT] == BiEncoderTable(c)[LAYOUT];
    }
  }

  // ── records ──────────────────────────────────────────────────────────────────

  const EMBEDDINGS_KEYS: set<Text> := {MODEL_ID, REVISION, LAYOUT, QUERY, PER_TRUTH, PER_NEGATIVE}

  /** Embeddings that can be shown: both tables are objects. */
  predicate Tabled(e: CD.EmbeddingsOnDisk) {
    e.perTruth.Entries? && e.perNegative.Entries?
  }

  ghost predicate ShowsEmbeddingsField(f: Field, e: CD.EmbeddingsOnDisk, medium: Medium)
    requires Tabled(e)
  {
    if f.key == MODEL_ID then f.value == Str(e.modelId)
    else if f.key == REVISION then f.value == Str(e.revision)
    else if f.key == LAYOUT then f.value == e.layout
    else if f.key == QUERY then ShowsHex(f.value, e.query, medium)
    else if f.key == PER_TRUTH then ShowsTable(f.value, e.perTruth.entries, medium)
    else ShowsTable(f.value, e.perNegative.entries, medium)
  }

  ghost predicate ShowsEmbeddings(v: Value, e: CD.EmbeddingsOnDisk, medium: Medium) {
    && Tabled(e) && v.Object? && Exactly(v.fields, EMBEDDINGS_KEYS)
    && forall i :: 0 <= i < |v.fields| ==> ShowsEmbeddingsField(v.fields[i], e, medium)
  }

  function EmbeddingsEntry(e: CD.EmbeddingsOnDisk, key: Text): Meaning
    requires Tabled(e)
  {
    if key == MODEL_ID then MStr(e.modelId)
    else if key == REVISION then MStr(e.revision)
    else if key == LAYOUT then MeaningOf(e.layout)
    else if key == QUERY then MStr(e.query)
    else if key == PER_TRUTH then MObject(Strings(e.perTruth.entries))
    else MObject(Strings(e.perNegative.entries))
  }

  function EmbeddingsTable(e: CD.EmbeddingsOnDisk): Table
    requires Tabled(e)
  {
    map k | k in EMBEDDINGS_KEYS :: EmbeddingsEntry(e, k)
  }

  lemma EmbeddingsFieldMeaning(f: Field, e: CD.EmbeddingsOnDisk, medium: Medium)
    requires Tabled(e) && ShowsEmbeddingsField(f, e, medium) && Sound(e.layout)
    ensures MeaningOf(f.value) == EmbeddingsEntry(e, f.key) && Sound(f.value)
  {
    if f.key == MODEL_ID || f.key == REVISION || f.key == LAYOUT {
    } else if f.key == QUERY {
      HexMeaning(f.value, e.query, medium);
    } else if f.key == PER_TRUTH {
      TableMeaning(f.value, e.perTruth.entries, medium);
    } else {
      TableMeaning(f.value, e.perNegative.entries, medium);
    }
  }

  lemma EmbeddingsMeaning(v: Value, e: CD.EmbeddingsOnDisk, medium: Medium)
    requires ShowsEmbeddings(v, e, medium) && Sound(e.layout)
    ensures MeaningOf(v) == MObject(EmbeddingsTable(e)) && Sound(v)
  {
    forall i | 0 <= i < |v.fields|
      ensures MeaningOf(v.fields[i].value) == EmbeddingsTable(e)[v.fields[i].key] && Sound(v.fields[i].value)
    {
      EmbeddingsFieldMeaning(v.fields[i], e, medium);
    }
    assert EmbeddingsTable(e).Keys == EMBEDDINGS_KEYS;
    ExactMeaning(v.fields, EmbeddingsTable(e));
    SoundObject(v.fields);
  }

  ghost predicate SameEmbeddings(e: CD.EmbeddingsOnDisk, g: CD.EmbeddingsOnDisk) {
    e == g.(layout := e.layout) && MeaningOf(e.layout) == MeaningOf(g.layout)
  }

  lemma StringsDetermined(m: map<Text, Text>, n: map<Text, Text>)
    requires Strings(m) == Strings(n)
    ensures m == n
  {
    forall k | k in m
      ensures k in n && m[k] == n[k]
    {
      assert k in Strings(m) && Strings(m)[k] == Strings(n)[k];
    }
    forall k | k in n
      ensures k in m
    {
      assert k in Strings(n);
    }
  }

  lemma EmbeddingsEntries(e: CD.EmbeddingsOnDisk)
    requires Tabled(e)
    ensures var t := EmbeddingsTable(e);
            && t[MODEL_ID] == MStr(e.modelId) && t[REVISION] == MStr(e.revision) && t[LAYOUT] == MeaningOf(e.layout)
            && t[QUERY] == MStr(e.query) && t[PER_TRUTH] == MObject(Strings(e.perTruth.entries))
            && t[PER_NEGATIVE] == MObject(Strings(e.perNegative.entries))
  {
    assert |MODEL_ID| == 7 && |REVISION| == 8 && |LAYOUT| == 6 && |QUERY| == 5 && |PER_TRUTH| == 8
           && |PER_NEGATIVE| == 11;
    assert REVISION[0] != PER_TRUTH[0];
  }

  lemma EmbeddingsDetermined(e: CD.EmbeddingsOnDisk, g: CD.EmbeddingsOnDisk)
    requires Tabled(e) && Tabled(g)
    ensures EmbeddingsTable(e) == EmbeddingsTable(g) <==> SameEmbeddings(e, g)
  {
    EmbeddingsEntries(e);
    EmbeddingsEntries(g);
    if EmbeddingsTable(e) == EmbeddingsTable(g) {
      StringsDetermined(e.perTruth.entries, g.perTruth.entries);
      StringsDetermined(e.perNegative.entries, g.perNegative.entries);
    }
    if SameEmbeddings(e, g) {
      assert forall k :: k in EMBEDDINGS_KEYS ==> EmbeddingsEntry(e, k) == EmbeddingsEntry(g, k);
    }
  }

  const RECORD_KEYS: set<Text> := {ID, SPLIT, EMBEDDINGS}

  /** A record that can be shown: its other fields have other keys, each once, and serializable values. */
  ghost predicate Plain(e: CD.EventOnDisk) {
    && DistinctKeys(e.content)
    && (forall i :: 0 <= i < |e.content| ==> e.content[i].key !in RECORD_KEYS && Sound(e.content[i].value))
    && e.embeddings.Some? && Tabled(e.embeddings.value) && Sound(e.embeddings.value.layout)
  }

  ghost predicate ShowsRecordField(f: Field, e: CD.EventOnDisk, medium: Medium)
    requires e.embeddings.Some?
  {
    if f.key == ID then f.value == Str(e.id)
    else if f.key == SPLIT then f.value == Str(e.split)
    else if f.key == EMBEDDINGS then ShowsEmbeddings(f.value, e.embeddings.value, medium)
    else f in e.content
  }

  ghost predicate ShowsRecord(v: Value, e: CD.EventOnDisk, medium: Medium) {
    && e.embeddings.Some? && v.Object? && DistinctKeys(v.fields)
    && (forall i :: 0 <= i < |v.fields| ==> ShowsRecordField(v.fields[i], e, medium))
    && (forall k :: k in RECORD_KEYS ==> exists i :: 0 <= i < |v.fields| && v.fields[i].key == k)
    && (forall c :: c in e.content ==> c in v.fields)
  }

  function ContentTable(content: seq<Field>): Table {
    MeaningOf(Object(content)).table
  }

  function RecordTable(e: CD.EventOnDisk): Table
    requires e.embeddings.Some? && Tabled(e.embeddings.value)
  {
    var embeddings := MObject(EmbeddingsTable(e.embeddings.value));
    ContentTable(e.content)[ID := MStr(e.id)][SPLIT := MStr(e.split)][EMBEDDINGS := embeddings]
  }

  /** The table of the other fields, entry by entry. */
  lemma ContentEntries(content: seq<Field>)
    requires DistinctKeys(content)
    ensures forall c :: c in content && !c.value.Undefined? ==>
              c.key in ContentTable(content) && ContentTable(content)[c.key] == MeaningOf(c.value)
    ensures forall k :: k in ContentTable(content) ==> exists c :: c in content && c.key == k && !c.value.Undefined?
  {
    var v, shown := Object(content), Visible(content);
    VisibleDistinct(content);
    forall j | 0 <= j < |shown|
      ensures shown[j].value < v
    {
      assert shown[j] in content;
    }
    forall c | c in content && !c.value.Undefined?
      ensures c.key in ContentTable(content) && ContentTable(content)[c.key] == MeaningOf(c.value)
    {
      assert c in shown;
      var j :| 0 <= j < |shown| && shown[j] == c;
      TableValue(v, shown, j);
    }
    forall k | k in ContentTable(content)
      ensures exists c :: c in content && c.key == k && !c.value.Undefined?
    {
      TableKeys(v, shown, k);
      var j :| 0 <= j < |shown| && shown[j].key == k;
      assert shown[j] in content;
    }
  }

  lemma KeysOfARecord()
    ensures ID != SPLIT && ID != EMBEDDINGS && SPLIT != EMBEDDINGS
  {
    assert |ID| == 2 && |SPLIT| == 5 && |EMBEDDINGS| == 10;
  }

  lemma RecordFieldMeaning(f: Field, e: CD.EventOnDisk, medium: Medium)
    requires Plain(e) && ShowsRecordField(f, e, medium)
    ensures Sound(f.value)
    ensures !f.value.Undefined? ==> f.key in RecordTable(e) && MeaningOf(f.value) == RecordTable(e)[f.key]
    ensures f.key in RECORD_KEYS ==> !f.value.Undefined?
  {
    KeysOfARecord();
    if f.key == EMBEDDINGS {
      EmbeddingsMeaning(f.value, e.embeddings.value, medium);
    } else if f.key != ID && f.key != SPLIT {
      ContentEntries(e.content);
    }
  }

  lemma RecordShownAll(v: Value, e: CD.EventOnDisk, medium: Medium, k: Text)
    requires Plain(e) && ShowsRecord(v, e, medium) && k in RecordTable(e)
    ensures exists i :: 0 <= i < |v.fields| && v.fields[i].key == k && !v.fields[i].value.Undefined?
  {
    if k in RECORD_KEYS {
      var i :| 0 <= i < |v.fields| && v.fields[i].key == k;
      RecordFieldMeaning(v.fields[i], e, medium);
    } else {
      ContentEntries(e.content);
      var c :| c in e.content && c.key == k && !c.value.Undefined?;
      assert c in v.fields;
    }
  }

  lemma RecordMeaning(v: Value, e: CD.EventOnDisk, medium: Medium)
    requires Plain(e) && ShowsRecord(v, e, medium)
    ensures MeaningOf(v) == MObject(RecordTable(e)) && Sound(v)
  {
    forall i | 0 <= i < |v.fields|
      ensures Sound(v.fields[i].value)
      ensures !v.fields[i].value.Undefined? ==>
                v.fields[i].key in RecordTable(e) && MeaningOf(v.fields[i].value) == RecordTable(e)[v.fields[i].key]
    {
      RecordFieldMeaning(v.fields[i], e, medium);
    }
    forall k | k in RecordTable(e)
      ensures exists i :: 0 <= i < |v.fields| && v.fields[i].key == k && !v.fields[i].value.Undefined?
    {
      RecordShownAll(v, e, medium, k);
    }
    TabulatedMeaning(v.fields, RecordTable(e));
    SoundObject(v.fields);
  }

  /** Records equal up to the meaning of the parts that are arbitrary JSON. */
  ghost predicate SameRecord(e: CD.EventOnDisk, g: CD.EventOnDisk)
    requires e.embeddings.Some? && g.embeddings.Some?
  {
    && e.id == g.id && e.split == g.split && ContentTable(e.content) == ContentTable(g.content)
    && SameEmbeddings(e.embeddings.value, g.embeddings.value)
  }

  lemma ContentOfRecord(e: CD.EventOnDisk)
    requires Plain(e)
    ensures ContentTable(e.content) == RecordTable(e) - RECORD_KEYS
    ensures RecordTable(e)[ID] == MStr(e.id) && RecordTable(e)[SPLIT] == MStr(e.split)
    ensures RecordTable(e)[EMBEDDINGS] == MObject(EmbeddingsTable(e.embeddings.value))
  {
    KeysOfARecord();
    ContentEntries(e.content);
    assert forall k :: k in ContentTable(e.content) ==> k !in RECORD_KEYS;
    MapsEqual(ContentTable(e.content), RecordTable(e) - RECORD_KEYS);
  }

  lemma RecordDetermined(e: CD.EventOnDisk, g: CD.EventOnDisk)
    requires Plain(e) && Plain(g)
    ensures RecordTable(e) == RecordTable(g) <==> SameRecord(e, g)
  {
    ContentOfRecord(e);
    ContentOfRecord(g);
    EmbeddingsDetermined(e.embeddings.value, g.embeddings.value);
  }

  // ── arrays ───────────────────────────────────────────────────────────────────

  lemma {:induction false} MeaningsAre(context: Value, elements: seq<Value>, ms: seq<Meaning>)
    requires |elements| == |ms|
             && forall i :: 0 <= i < |elements| ==> elements[i] < context && MeaningOf(elements[i]) == ms[i]
    ensures Meanings(context, elements) == ms
    decreases |elements|
  {
    if elements != [] {
      MeaningsAre(context, elements[1..], ms[1..]);
      assert ms == [ms[0]] + ms[1..];
    }
  }

  lemma ArrayMeaning(elements: seq<Value>, ms: seq<Meaning>)
    requires |elements| == |ms| && forall i :: 0 <= i < |elements| ==> MeaningOf(elements[i]) == ms[i]
    ensures MeaningOf(Array(elements)) == MArray(ms)
  {
    MeaningsAre(Array(elements), elements, ms);
  }

  ghost predicate ShowsIds(v: Value, ids: seq<Text>) {
    v.Array? && |v.elements| == |ids| && forall i :: 0 <= i < |ids| ==> v.elements[i] == Str(ids[i])
  }

  function IdMeanings(ids: seq<Text>): (r: seq<Meaning>)
    ensures |r| == |ids| && forall i :: 0 <= i < |r| ==> r[i] == MStr(ids[i])
  {
    if ids == [] then [] else [MStr(ids[0])] + IdMeanings(ids[1..])
  }

  lemma IdsMeaning(v: Value, ids: seq<Text>)
    requires ShowsIds(v, ids)
    ensures MeaningOf(v) == MArray(IdMeanings(ids)) && Sound(v)
  {
    ArrayMeaning(v.elements, IdMeanings(ids));
    SoundArray(v.elements);
  }

  lemma IdsDetermined(a: seq<Text>, b: seq<Text>)
    requires IdMeanings(a) == IdMeanings(b)
    ensures a == b
  {
    assert |a| == |IdMeanings(a)| == |b|;
    assert forall i :: 0 <= i < |a| ==> IdMeanings(a)[i] == MStr(a[i]) && IdMeanings(b)[i] == MStr(b[i]);
  }

  ghost predicate ShowsRecords(v: Value, records: seq<CD.EventOnDisk>, medium: Medium) {
    v.Array? && |v.elements| == |records|
    && forall i :: 0 <= i < |records| ==> ShowsRecord(v.elements[i], records[i], medium)
  }

  ghost predicate AllPlain(records: seq<CD.EventOnDisk>) {
    forall i :: 0 <= i < |records| ==> Plain(records[i])
  }

  ghost function RecordMeanings(records: seq<CD.EventOnDisk>): (r: seq<Meaning>)
    requires AllPlain(records)
    ensures |r| == |records| && forall i :: 0 <= i < |r| ==> r[i] == MObject(RecordTable(records[i]))
  {
    if records == [] then [] else [MObject(RecordTable(records[0]))] + RecordMeanings(records[1..])
  }

  lemma RecordsMeaning(v: Value, records: seq<CD.EventOnDisk>, medium: Medium)
    requires AllPlain(records) && ShowsRecords(v, records, medium)
    ensures MeaningOf(v) == MArray(RecordMeanings(records)) && Sound(v)
  {
    forall i | 0 <= i < |records|
      ensures MeaningOf(v.elements[i]) == RecordMeanings(records)[i] && Sound(v.elements[i])
    {
      RecordMeaning(v.elements[i], records[i], medium);
    }
    ArrayMeaning(v.elements, RecordMeanings(records));
    SoundArray(v.elements);
  }

  ghost predicate SameRecords(a: seq<CD.EventOnDisk>, b: seq<CD.EventOnDisk>)
    requires AllPlain(a) && AllPlain(b)
  {
    |a| == |b| && forall i :: 0 <= i < |a| ==> SameRecord(a[i], b[i])
  }

  lemma RecordsDetermined(a: seq<CD.EventOnDisk>, b: seq<CD.EventOnDisk>)
    requires AllPlain(a) && AllPlain(b)
    ensures RecordMeanings(a) == RecordMeanings(b) <==> SameRecords(a, b)
  {
    if |a| == |b| {
      forall i | 0 <= i < |a|
        ensures RecordMeanings(a)[i] == RecordMeanings(b)[i] <==> SameRecord(a[i], b[i])
      {
        RecordDetermined(a[i], b[i]);
      }
    }
  }

  // ── deltas ───────────────────────────────────────────────────────────────────

  type DiskDelta = CD.Delta<CD.EventOnDisk>

  /** The hex string of a root. */
  type RootText = CD.Hash -> Text

  const REQUIRED_KEYS: set<Text> := {SCHEMA_VERSION, PREVIOUS_ROOT, NEXT_ROOT, ADDED_IDS, ADDED_RECORDS, REMOVED_IDS,
                                     PROVENANCE, BI_ENCODER, EPOCH, CORPUS_EPOCH, GENERATED_AT}
  const OPTIONAL_KEYS: set<Text> := {SIGNATURE, SIGNER_KEY_ID}

  ghost predicate Serializable(d: DiskDelta) {
    AllPlain(d.addedRecords) && Sound(d.biEncoder.layout) && !d.biEncoder.layout.Undefined?
    && forall i :: 0 <= i < |d.addedRecords| ==> !d.addedRecords[i].embeddings.value.layout.Undefined?
  }

  ghost predicate ShowsOptional(v: Value, o: Option<Text>) {
    if o.None? then v.Undefined? else v == Str(o.value)
  }

  ghost predicate ShowsDeltaField(f: Field, d: DiskDelta, root: RootText, medium: Medium) {
    if f.key == SCHEMA_VERSION then f.value == Str(d.schemaVersion)
    else if f.key == PREVIOUS_ROOT then f.value == Str(root(d.previousRoot))
    else if f.key == NEXT_ROOT then f.value == Str(root(d.nextRoot))
    else if f.key == ADDED_IDS then ShowsIds(f.value, d.addedIds)
    else if f.key == ADDED_RECORDS then ShowsRecords(f.value, d.addedRecords, medium)
    else if f.key == REMOVED_IDS then ShowsIds(f.value, d.removedIds)
    else if f.key == PROVENANCE then ShowsProvenance(f.value, d.provenance)
    else if f.key == BI_ENCODER then ShowsBiEncoder(f.value, d.biEncoder)
    else if f.key == EPOCH then f.value == Int(d.epoch)
    else if f.key == CORPUS_EPOCH then f.value == Int(d.corpusEpoch)
    else if f.key == GENERATED_AT then f.value == Str(d.generatedAt)
    else if f.key == SIGNATURE then ShowsOptional(f.value, d.signature)
    else f.key == SIGNER_KEY_ID && ShowsOptional(f.value, d.signerKeyId)
  }

  /** A value of the delta: its fields in any order, an absent optional field missing or undefined. */
  ghost predicate ShowsDelta(v: Value, d: DiskDelta, root: RootText, medium: Medium) {
    && v.Object? && DistinctKeys(v.fields)
    && (forall i :: 0 <= i < |v.fields| ==> ShowsDeltaField(v.fields[i], d, root, medium))
    && (forall k :: k in REQUIRED_KEYS ==> exists i :: 0 <= i < |v.fields| && v.fields[i].key == k)
    && (d.signature.Some? ==> exists i :: 0 <= i < |v.fields| && v.fields[i].key == SIGNATURE)
    && (d.signerKeyId.Some? ==> exists i :: 0 <= i < |v.fields| && v.fields[i].key == SIGNER_KEY_ID)
  }

  /** What a field of the delta means; None for an absent optional one. */
  ghost function DeltaEntry(d: DiskDelta, root: RootText, key: Text): Option<Meaning>
    requires AllPlain(d.addedRecords)
  {
    if key == SCHEMA_VERSION then Some(MStr(d.schemaVersion))
    else if key == PREVIOUS_ROOT then Some(MStr(root(d.previousRoot)))
    else if key == NEXT_ROOT then Some(MStr(root(d.nextRoot)))
    else if key == ADDED_IDS then Some(MArray(IdMeanings(d.addedIds)))
    else if key == ADDED_RECORDS then Some(MArray(RecordMeanings(d.addedRecords)))
    else if key == REMOVED_IDS then Some(MArray(IdMeanings(d.removedIds)))
    else if key == PROVENANCE then Some(MObject(ProvenanceTable(d.provenance)))
    else if key == BI_ENCODER then Some(MObject(BiEncoderTable(d.biEncoder)))
    else if key == EPOCH then Some(MInt(d.epoch))
    else if key == CORPUS_EPOCH then Some(MInt(d.corpusEpoch))
    else if key == GENERATED_AT then Some(MStr(d.generatedAt))
    else if key == SIGNATURE then Optional(d.signature)
    else if key == SIGNER_KEY_ID then Optional(d.signerKeyId)
    else None
  }

  function Optional(o: Option<Text>): Option<Meaning> {
    if o.None? then None else Some(MStr(o.value))
  }

  ghost function DeltaTable(d: DiskDelta, root: RootText): Table
    requires AllPlain(d.addedRecords)
  {
    map k | k in REQUIRED_KEYS + OPTIONAL_KEYS && DeltaEntry(d, root, k).Some? :: DeltaEntry(d, root, k).value
  }

  lemma DeltaFieldMeaning(f: Field, d: DiskDelta, root: RootText, medium: Medium)
    requires Serializable(d) && ShowsDeltaField(f, d, root, medium)
    ensures Sound(f.value)
    ensures DeltaEntry(d, root, f.key) == if f.value.Undefined? then None else Some(MeaningOf(f.value))
    ensures f.key in REQUIRED_KEYS + OPTIONAL_KEYS
  {
    if f.key == SCHEMA_VERSION || f.key == PREVIOUS_ROOT || f.key == NEXT_ROOT {
    } else if f.key == ADDED_IDS { IdsMeaning(f.value, d.addedIds); }
    else if f.key == ADDED_RECORDS { RecordsMeaning(f.value, d.addedRecords, medium); }
    else if f.key == REMOVED_IDS { IdsMeaning(f.value, d.removedIds); }
    else if f.key == PROVENANCE { ProvenanceMeaning(f.value, d.provenance); }
    else if f.key == BI_ENCODER { BiEncoderMeaning(f.value, d.biEncoder); }
  }

  lemma DeltaShownAll(v: Value, d: DiskDelta, root: RootText, medium: Medium, k: Text)
    requires Serializable(d) && ShowsDelta(v, d, root, medium) && k in DeltaTable(d, root)
    ensures exists i :: 0 <= i < |v.fields| && v.fields[i].key == k && !v.fields[i].value.Undefined?
  {
    PresentKey(d, root, k);
    var i :| 0 <= i < |v.fields| && v.fields[i].key == k;
    DeltaFieldMeaning(v.fields[i], d, root, medium);
  }

  lemma PresentKey(d: DiskDelta, root: RootText, k: Text)
    requires AllPlain(d.addedRecords) && k in DeltaTable(d, root)
    ensures k in REQUIRED_KEYS || (k == SIGNATURE && d.signature.Some?) || (k == SIGNER_KEY_ID && d.signerKeyId.Some?)
  {
    OptionalEntries(d, root);
  }

  lemma OptionalEntries(d: DiskDelta, root: RootText)
    requires AllPlain(d.addedRecords)
    ensures DeltaEntry(d, root, SIGNATURE) == Optional(d.signature)
            && DeltaEntry(d, root, SIGNER_KEY_ID) == Optional(d.signerKeyId)
  {
    KeysOfADelta();
  }

  lemma PlainEntries(d: DiskDelta, root: RootText)
    requires AllPlain(d.addedRecords)
    ensures DeltaEntry(d, root, SCHEMA_VERSION) == Some(MStr(d.schemaVersion))
    ensures DeltaEntry(d, root, PREVIOUS_ROOT) == Some(MStr(root(d.previousRoot)))
    ensures DeltaEntry(d, root, NEXT_ROOT) == Some(MStr(root(d.nextRoot)))
    ensures DeltaEntry(d, root, EPOCH) == Some(MInt(d.epoch))
            && DeltaEntry(d, root, CORPUS_EPOCH) == Some(MInt(d.corpusEpoch))
    ensures DeltaEntry(d, root, GENERATED_AT) == Some(MStr(d.generatedAt))
  {
    KeysOfADelta();
  }

  lemma CompoundEntries(d: DiskDelta, root: RootText)
    requires AllPlain(d.addedRecords)
    ensures DeltaEntry(d, root, ADDED_IDS) == Some(MArray(IdMeanings(d.addedIds)))
    ensures DeltaEntry(d, root, ADDED_RECORDS) == Some(MArray(RecordMeanings(d.addedRecords)))
    ensures DeltaEntry(d, root, REMOVED_IDS) == Some(MArray(IdMeanings(d.removedIds)))
    ensures DeltaEntry(d, root, PROVENANCE) == Some(MObject(ProvenanceTable(d.provenance)))
    ensures DeltaEntry(d, root, BI_ENCODER) == Some(MObject(BiEncoderTable(d.biEncoder)))
  {
    KeysOfADelta();
  }

  lemma KeysOfADelta()
    ensures |SCHEMA_VERSION| == 13 && |PREVIOUS_ROOT| == 12 && |NEXT_ROOT| == 8 && |ADDED_IDS| == 8
            && |ADDED_RECORDS| == 12
    ensures |REMOVED_IDS| == 10 && |PROVENANCE| == 18 && |BI_ENCODER| == 9 && |EPOCH| == 5 && |CORPUS_EPOCH| == 11
    ensures |GENERATED_AT| == 11 && |SIGNATURE| == 9 && |SIGNER_KEY_ID| == 11
    ensures PREVIOUS_ROOT != ADDED_RECORDS && NEXT_ROOT != ADDED_IDS && BI_ENCODER != SIGNATURE
    ensures CORPUS_EPOCH != GENERATED_AT && CORPUS_EPOCH != SIGNER_KEY_ID && GENERATED_AT != SIGNER_KEY_ID
  {
    assert PREVIOUS_ROOT[0] != ADDED_RECORDS[0] && NEXT_ROOT[0] != ADDED_IDS[0] && BI_ENCODER[0] != SIGNATURE[0];
    assert CORPUS_EPOCH[0] != GENERATED_AT[0] && CORPUS_EPOCH[0] != SIGNER_KEY_ID[0]
           && GENERATED_AT[0] != SIGNER_KEY_ID[0];
  }

  /** Whatever the medium and the order of its fields, a value of the delta means the delta. */
  lemma DeltaMeaning(v: Value, d: DiskDelta, root: RootText, medium: Medium)
    requires Serializable(d) && ShowsDelta(v, d, root, medium)
    ensures MeaningOf(v) == MObject(DeltaTable(d, root)) && Sound(v)
  {
    forall i | 0 <= i < |v.fields|
      ensures Sound(v.fields[i].value)
      ensures !v.fields[i].value.Undefined? ==>
                v.fields[i].key in DeltaTable(d, root)
                  && MeaningOf(v.fields[i].value) == DeltaTable(d, root)[v.fields[i].key]
    {
      DeltaFieldMeaning(v.fields[i], d, root, medium);
    }
    forall k | k in DeltaTable(d, root)
      ensures exists i :: 0 <= i < |v.fields| && v.fields[i].key == k && !v.fields[i].value.Undefined?
    {
      DeltaShownAll(v, d, root, medium, k);
    }
    TabulatedMeaning(v.fields, DeltaTable(d, root));
    SoundObject(v.fields);
  }

  /** Deltas equal up to the meaning of layouts and of the records' other fields. */
  ghost predicate SameDelta(d: DiskDelta, e: DiskDelta)
    requires AllPlain(d.addedRecords) && AllPlain(e.addedRecords)
  {
    && d == e.(addedRecords := d.addedRecords, biEncoder := d.biEncoder)
    && SameRecords(d.addedRecords, e.addedRecords) && SameBiEncoder(d.biEncoder, e.biEncoder)
  }

  ghost predicate RootsShownApart(root: RootText) {
    forall a, b :: root(a) == root(b) ==> a == b
  }

  lemma EntriesAgree(d: DiskDelta, e: DiskDelta, root: RootText, k: Text)
    requires AllPlain(d.addedRecords) && AllPlain(e.addedRecords) && DeltaTable(d, root) == DeltaTable(e, root)
    requires k in REQUIRED_KEYS + OPTIONAL_KEYS
    ensures DeltaEntry(d, root, k) == DeltaEntry(e, root, k)
  {
    assert k in DeltaTable(d, root) <==> k in DeltaTable(e, root);
  }

  lemma DeltaDetermined(d: DiskDelta, e: DiskDelta, root: RootText)
    requires AllPlain(d.addedRecords) && AllPlain(e.addedRecords) && RootsShownApart(root)
    requires DeltaTable(d, root) == DeltaTable(e, root)
    ensures SameDelta(d, e)
  {
    PlainDetermined(d, e, root);
    CompoundDetermined(d, e, root);
  }

  lemma PlainDetermined(d: DiskDelta, e: DiskDelta, root: RootText)
    requires AllPlain(d.addedRecords) && AllPlain(e.addedRecords) && RootsShownApart(root)
    requires DeltaTable(d, root) == DeltaTable(e, root)
    ensures d.schemaVersion == e.schemaVersion && d.previousRoot == e.previousRoot && d.nextRoot == e.nextRoot
    ensures d.epoch == e.epoch && d.corpusEpoch == e.corpusEpoch && d.generatedAt == e.generatedAt
    ensures d.signature == e.signature && d.signerKeyId == e.signerKeyId
  {
    PlainEntries(d, root);
    PlainEntries(e, root);
    OptionalEntries(d, root);
    OptionalEntries(e, root);
    EntriesAgree(d, e, root, SCHEMA_VERSION);
    EntriesAgree(d, e, root, PREVIOUS_ROOT);
    EntriesAgree(d, e, root, NEXT_ROOT);
    EntriesAgree(d, e, root, EPOCH);
    EntriesAgree(d, e, root, CORPUS_EPOCH);
    EntriesAgree(d, e, root, GENERATED_AT);
    EntriesAgree(d, e, root, SIGNATURE);
    EntriesAgree(d, e, root, SIGNER_KEY_ID);
  }

  lemma CompoundDetermined(d: DiskDelta, e: DiskDelta, root: RootText)
    requires AllPlain(d.addedRecords) && AllPlain(e.addedRecords) && DeltaTable(d, root) == DeltaTable(e, root)
    ensures d.addedIds == e.addedIds && d.removedIds == e.removedIds && d.provenance == e.provenance
    ensures SameRecords(d.addedRecords, e.addedRecords) && SameBiEncoder(d.biEncoder, e.biEncoder)
  {
    CompoundEntries(d, root);
    CompoundEntries(e, root);
    EntriesAgree(d, e, root, ADDED_IDS);
    EntriesAgree(d, e, root, ADDED_RECORDS);
    EntriesAgree(d, e, root, REMOVED_IDS);
    EntriesAgree(d, e, root, PROVENANCE);
    EntriesAgree(d, e, root, BI_ENCODER);
    IdsDetermined(d.addedIds, e.addedIds);
    IdsDetermined(d.removedIds, e.removedIds);
    ProvenanceDetermined(d.provenance, e.provenance);
    BiEncoderDetermined(d.biEncoder, e.biEncoder);
    RecordsDetermined(d.addedRecords, e.addedRecords);
  }

  lemma SameDeltaSameTable(d: DiskDelta, e: DiskDelta, root: RootText)
    requires AllPlain(d.addedRecords) && AllPlain(e.addedRecords) && SameDelta(d, e)
    ensures DeltaTable(d, root) == DeltaTable(e, root)
  {
    BiEncoderDetermined(d.biEncoder, e.biEncoder);
    RecordsDetermined(d.addedRecords, e.addedRecords);
    assert forall k :: DeltaEntry(d, root, k) == DeltaEntry(e, root, k);
  }

  /** The canonical bytes identify the delta: two values of deltas, in memory or on disk, with their
      fields in any order, have the same canonical text exactly when the deltas are the same up to the
      meaning of their JSON parts. This is what a signature over the bytes stands for. */
  lemma CanonicalTextIdentifiesDelta(v: Value, d: DiskDelta, a: Medium, w: Value, e: DiskDelta, b: Medium,
                                     root: RootText)
    requires Serializable(d) && Serializable(e) && RootsShownApart(root)
    requires ShowsDelta(v, d, root, a) && ShowsDelta(w, e, root, b)
    ensures CanonicalText(v).Serialized? && CanonicalText(w).Serialized?
    ensures CanonicalText(v) == CanonicalText(w) <==> SameDelta(d, e)
  {
    DeltaMeaning(v, d, root, a);
    DeltaMeaning(w, e, root, b);
    JsonReader.CanonicalTextIdentifiesMeaning(v, w);
    if DeltaTable(d, root) == DeltaTable(e, root) {
      DeltaDetermined(d, e, root);
    } else if SameDelta(d, e) {
      SameDeltaSameTable(d, e, root);
    }
  }

  // ── memory, disk and back ────────────────────────────────────────────────────

  /** A value of an in-memory delta: byte fields are byte arrays. */
  ghost predicate InMemory(v: Value, d: CD.Delta<CD.Event>, root: RootText) {
    ShowsDelta(v, CD.SerializeDelta(d), root, Memory)
  }

  /** Writing a delta, reading it back and serializing it again never changes its canonical bytes: every
      value of the delta in memory, of its file, and of what is parsed from the file has the same text. */
  lemma SameBytesEverywhere(d: CD.Delta<CD.Event>, root: RootText, v: Value, file: Value, parsed: Value)
    requires Serializable(CD.SerializeDelta(d))
    requires InMemory(v, d, root) && ShowsDelta(file, CD.SerializeDelta(d), root, Disk)
    requires CD.ParseDelta(CD.SerializeDelta(d)).Ok? ==>
               InMemory(parsed, CD.ParseDelta(CD.SerializeDelta(d)).value, root)
    ensures CD.ParseDelta(CD.SerializeDelta(d)) == CD.Ok(d)
    ensures CanonicalText(v).Serialized? && CanonicalText(v) == CanonicalText(file) == CanonicalText(parsed)
  {
    CD.DiskRoundTrip(d);
    DeltaMeaning(v, CD.SerializeDelta(d), root, Memory);
    DeltaMeaning(file, CD.SerializeDelta(d), root, Disk);
    DeltaMeaning(parsed, CD.SerializeDelta(d), root, Memory);
    JsonReader.CanonicalTextIdentifiesMeaning(v, file);
    JsonReader.CanonicalTextIdentifiesMeaning(v, parsed);
  }

  /** In memory, records that are the same on disk have the same bytes. */
  lemma SameRecordInMemory(a: CD.Event, b: CD.Event)
    requires SameRecord(CD.EventToDisk(a), CD.EventToDisk(b))
    ensures a.id == b.id && a.split == b.split
    ensures a.embeddings == b.embeddings.(layout := a.embeddings.layout)
  {
    CD.EventRoundTrip(a);
    CD.EventRoundTrip(b);
    CD.UnhexOfHex(a.embeddings.query);
    CD.UnhexOfHex(b.embeddings.query);
    CD.TableRoundTrip(a.embeddings.perTruth);
    CD.TableRoundTrip(b.embeddings.perTruth);
    CD.TableRoundTrip(a.embeddings.perNegative);
    CD.TableRoundTrip(b.embeddings.perNegative);
  }

  // ── every delta has a value ──────────────────────────────────────────────────

  ghost predicate Once(keys: seq<Text>) {
    forall i, j :: 0 <= i < j < |keys| ==> keys[i] != keys[j]
  }

  /** Some listing of a set of keys. */
  ghost function Listed(keys: set<Text>): (r: seq<Text>)
    ensures Once(r) && forall k :: k in r <==> k in keys
  {
    if exists k :: k in keys then
      var k :| k in keys;
      var rest := Listed(keys - {k});
      assert forall i :: 0 <= i < |rest| ==> rest[i] in rest;
      [k] + rest
    else []
  }

  /** One field per key. */
  ghost function FieldsOf(keys: seq<Text>, value: Text -> Value): (r: seq<Field>)
    ensures |r| == |keys| && forall i :: 0 <= i < |r| ==> r[i] == Field(keys[i], value(keys[i]))
  {
    if keys == [] then [] else [Field(keys[0], value(keys[0]))] + FieldsOf(keys[1..], value)
  }

  /** Exactly the given keys, each once, each with its value. */
  ghost predicate Covers(fields: seq<Field>, keys: set<Text>, value: Text -> Value) {
    && DistinctKeys(fields)
    && (forall i :: 0 <= i < |fields| ==> fields[i].key in keys && fields[i].value == value(fields[i].key))
    && (forall k :: k in keys ==> exists i :: 0 <= i < |fields| && fields[i].key == k)
  }

  lemma FieldsCover(keys: set<Text>, names: seq<Text>, value: Text -> Value)
    requires Once(names) && forall k :: k in names <==> k in keys
    ensures Covers(FieldsOf(names, value), keys, value)
  {
    var fields := FieldsOf(names, value);
    forall i | 0 <= i < |fields|
      ensures fields[i].key in keys
    {
      assert names[i] in names;
    }
    forall k | k in keys
      ensures exists i :: 0 <= i < |fields| && fields[i].key == k
    {
      assert k in names;
      var i :| 0 <= i < |names| && names[i] == k;
      assert fields[i].key == k;
    }
  }

  lemma CoversExactly(fields: seq<Field>, keys: set<Text>, value: Text -> Value)
    requires Covers(fields, keys, value) && forall k :: !value(k).Undefined?
    ensures Exactly(fields, keys)
  {
  }

  function HexValue(hex: Text, medium: Medium): Value {
    if medium == Disk then Str(hex) else if CD.Unhex(hex).Some? then Uint8Array(CD.Unhex(hex).value) else Null
  }

  /** Hex that stands for bytes in the medium: any text on disk, the bare hex of some bytes in memory. */
  predicate Showable(hex: Text, medium: Medium) {
    medium == Memory ==> CD.LowerHex(hex)
  }

  lemma HexShown(hex: Text, medium: Medium)
    requires Showable(hex, medium)
    ensures ShowsHex(HexValue(hex, medium), hex, medium)
  {
    if medium == Memory {
      CD.LowerIsClean(hex);
      CD.HexOfUnhex(hex);
    }
  }

  /** In memory the value of bytes is those bytes. */
  lemma BytesShown(bytes: seq<Byte>)
    ensures Showable(BareHex(bytes), Memory) && HexValue(BareHex(bytes), Memory) == Uint8Array(bytes)
  {
    CD.BareHexIsLower(bytes);
    HexShown(BareHex(bytes), Memory);
    ShowsBytes(HexValue(BareHex(bytes), Memory), bytes);
  }

  ghost function ObjectOf(keys: set<Text>, value: Text -> Value): (v: Value)
    ensures v.Object? && Covers(v.fields, keys, value)
  {
    FieldsCover(keys, Listed(keys), value);
    Object(FieldsOf(Listed(keys), value))
  }

  function EntryValue(entries: map<Text, Text>, medium: Medium, k: Text): Value {
    if k in entries then HexValue(entries[k], medium) else Null
  }

  /** The fields of an object, as a function of the key. */
  ghost function EntryValues(entries: map<Text, Text>, medium: Medium): Text -> Value {
    k => EntryValue(entries, medium, k)
  }

  ghost function TableOf(entries: map<Text, Text>, medium: Medium): Value {
    ObjectOf(entries.Keys, EntryValues(entries, medium))
  }

  ghost predicate AllShowable(entries: map<Text, Text>, medium: Medium) {
    forall k :: k in entries ==> Showable(entries[k], medium)
  }

  lemma TableShown(entries: map<Text, Text>, medium: Medium)
    requires AllShowable(entries, medium)
    ensures ShowsTable(TableOf(entries, medium), entries, medium)
  {
    var v := TableOf(entries, medium);
    forall i | 0 <= i < |v.fields|
      ensures ShowsHex(v.fields[i].value, entries[v.fields[i].key], medium)
    {
      HexShown(entries[v.fields[i].key], medium);
    }
  }

  ghost function ProvenanceValues(p: CD.Provenance): Text -> Value {
    k => Str(ProvenanceText(p, k))
  }

  ghost function ProvenanceOf(p: CD.Provenance): Value {
    ObjectOf(PROVENANCE_KEYS, ProvenanceValues(p))
  }

  lemma ProvenanceExact(p: CD.Provenance)
    ensures Exactly(ProvenanceOf(p).fields, PROVENANCE_KEYS)
  {
    CoversExactly(ProvenanceOf(p).fields, PROVENANCE_KEYS, ProvenanceValues(p));
  }

  lemma ProvenanceFieldShown(p: CD.Provenance, i: nat)
    requires i < |ProvenanceOf(p).fields|
    ensures ProvenanceOf(p).fields[i].value == Str(ProvenanceText(p, ProvenanceOf(p).fields[i].key))
  {
  }

  lemma ProvenanceShown(p: CD.Provenance)
    ensures ShowsProvenance(ProvenanceOf(p), p)
  {
    var v := ProvenanceOf(p);
    ProvenanceExact(p);
    forall i | 0 <= i < |v.fields|
      ensures v.fields[i].value == Str(ProvenanceText(p, v.fields[i].key))
    {
      ProvenanceFieldShown(p, i);
    }
  }

  ghost function BiEncoderValues(b: CD.BiEncoder): Text -> Value {
    k => BiEncoderValue(b, k)
  }

  ghost function BiEncoderOf(b: CD.BiEncoder): Value {
    ObjectOf(BI_ENCODER_KEYS, BiEncoderValues(b))
  }

  lemma BiEncoderDefined(b: CD.BiEncoder, k: Text)
    requires !b.layout.Undefined?
    ensures !BiEncoderValues(b)(k).Undefined?
  {
  }

  lemma BiEncoderExact(b: CD.BiEncoder)
    requires !b.layout.Undefined?
    ensures Exactly(BiEncoderOf(b).fields, BI_ENCODER_KEYS)
  {
    forall k
      ensures !BiEncoderValues(b)(k).Undefined?
    {
      BiEncoderDefined(b, k);
    }
    CoversExactly(BiEncoderOf(b).fields, BI_ENCODER_KEYS, BiEncoderValues(b));
  }

  lemma BiEncoderFieldShown(b: CD.BiEncoder, i: nat)
    requires i < |BiEncoderOf(b).fields|
    ensures BiEncoderOf(b).fields[i].value == BiEncoderValue(b, BiEncoderOf(b).fields[i].key)
  {
  }

  lemma BiEncoderShown(b: CD.BiEncoder)
    requires !b.layout.Undefined?
    ensures ShowsBiEncoder(BiEncoderOf(b), b)
  {
    var v := BiEncoderOf(b);
    BiEncoderExact(b);
    forall i | 0 <= i < |v.fields|
      ensures v.fields[i].value == BiEncoderValue(b, v.fields[i].key)
    {
      BiEncoderFieldShown(b, i);
    }
  }

  ghost function EmbeddingsValue(e: CD.EmbeddingsOnDisk, medium: Medium, k: Text): Value
    requires Tabled(e)
  {
    if k == MODEL_ID then Str(e.modelId)
    else if k == REVISION then Str(e.revision)
    else if k == LAYOUT then e.layout
    else if k == QUERY then HexValue(e.query, medium)
    else if k == PER_TRUTH then TableOf(e.perTruth.entries, medium)
    else TableOf(e.perNegative.entries, medium)
  }

  ghost function EmbeddingsValues(e: CD.EmbeddingsOnDisk, medium: Medium): Text -> Value
    requires Tabled(e)
  {
    k => EmbeddingsValue(e, medium, k)
  }

  ghost function EmbeddingsOf(e: CD.EmbeddingsOnDisk, medium: Medium): Value
    requires Tabled(e)
  {
    ObjectOf(EMBEDDINGS_KEYS, EmbeddingsValues(e, medium))
  }

  ghost predicate EmbeddingsShowable(e: CD.EmbeddingsOnDisk, medium: Medium) {
    && Tabled(e) && !e.layout.Undefined? && Showable(e.query, medium)
    && AllShowable(e.perTruth.entries, medium) && AllShowable(e.perNegative.entries, medium)
  }

  lemma EmbeddingsFieldShown(e: CD.EmbeddingsOnDisk, medium: Medium, k: Text)
    requires EmbeddingsShowable(e, medium)
    ensures ShowsEmbeddingsField(Field(k, EmbeddingsValue(e, medium, k)), e, medium)
    ensures !EmbeddingsValue(e, medium, k).Undefined?
  {
    HexShown(e.query, medium);
    TableShown(e.perTruth.entries, medium);
    TableShown(e.perNegative.entries, medium);
  }

  lemma EmbeddingsExact(e: CD.EmbeddingsOnDisk, medium: Medium)
    requires EmbeddingsShowable(e, medium)
    ensures Exactly(EmbeddingsOf(e, medium).fields, EMBEDDINGS_KEYS)
  {
    forall k
      ensures !EmbeddingsValues(e, medium)(k).Undefined?
    {
      EmbeddingsFieldShown(e, medium, k);
    }
    CoversExactly(EmbeddingsOf(e, medium).fields, EMBEDDINGS_KEYS, EmbeddingsValues(e, medium));
  }

  lemma EmbeddingsFieldOf(e: CD.EmbeddingsOnDisk, medium: Medium, i: nat)
    requires Tabled(e) && i < |EmbeddingsOf(e, medium).fields|
    ensures var f := EmbeddingsOf(e, medium).fields[i];
            f == Field(f.key, EmbeddingsValue(e, medium, f.key))
  {
  }

  lemma EmbeddingsShown(e: CD.EmbeddingsOnDisk, medium: Medium)
    requires EmbeddingsShowable(e, medium)
    ensures ShowsEmbeddings(EmbeddingsOf(e, medium), e, medium)
  {
    var v := EmbeddingsOf(e, medium);
    EmbeddingsExact(e, medium);
    forall i | 0 <= i < |v.fields|
      ensures ShowsEmbeddingsField(v.fields[i], e, medium)
    {
      EmbeddingsFieldOf(e, medium, i);
      EmbeddingsFieldShown(e, medium, v.fields[i].key);
    }
  }

  ghost function RecordOf(e: CD.EventOnDisk, medium: Medium): Value
    requires e.embeddings.Some? && Tabled(e.embeddings.value)
  {
    Object(e.content + [Field(ID, Str(e.id)), Field(SPLIT, Str(e.split)),
                        Field(EMBEDDINGS, EmbeddingsOf(e.embeddings.value, medium))])
  }

  lemma RecordShown(e: CD.EventOnDisk, medium: Medium)
    requires Plain(e) && EmbeddingsShowable(e.embeddings.value, medium)
    ensures ShowsRecord(RecordOf(e, medium), e, medium)
  {
    var own := [Field(ID, Str(e.id)), Field(SPLIT, Str(e.split)),
                Field(EMBEDDINGS, EmbeddingsOf(e.embeddings.value, medium))];
    EmbeddingsShown(e.embeddings.value, medium);
    OwnKeys(own);
    KeysApart(e.content, own);
    RecordFieldsShown(e, own, medium);
  }

  lemma OwnKeys(own: seq<Field>)
    requires |own| == 3 && own[0].key == ID && own[1].key == SPLIT && own[2].key == EMBEDDINGS
    ensures DistinctKeys(own) && forall j :: 0 <= j < |own| ==> own[j].key in RECORD_KEYS
  {
    KeysOfARecord();
  }

  lemma KeysApart(a: seq<Field>, b: seq<Field>)
    requires DistinctKeys(a) && DistinctKeys(b)
    requires forall i, j :: 0 <= i < |a| && 0 <= j < |b| ==> a[i].key != b[j].key
    ensures DistinctKeys(a + b)
  {
  }

  lemma RecordFieldsShown(e: CD.EventOnDisk, own: seq<Field>, medium: Medium)
    requires Plain(e) && |own| == 3 && own[0] == Field(ID, Str(e.id)) && own[1] == Field(SPLIT, Str(e.split))
    requires own[2].key == EMBEDDINGS && ShowsEmbeddings(own[2].value, e.embeddings.value, medium)
    ensures forall i :: 0 <= i < |e.content + own| ==> ShowsRecordField((e.content + own)[i], e, medium)
    ensures forall k :: k in RECORD_KEYS ==> exists i :: 0 <= i < |e.content + own| && (e.content + own)[i].key == k
    ensures forall c :: c in e.content ==> c in e.content + own
  {
    KeysOfARecord();
    var fields, n := e.content + own, |e.content|;
    assert fields[n].key == ID && fields[n + 1].key == SPLIT && fields[n + 2].key == EMBEDDINGS;
    forall i | 0 <= i < n
      ensures fields[i] in e.content
    {
      assert fields[i] == e.content[i];
    }
  }

  ghost predicate Drawn(records: seq<CD.EventOnDisk>) {
    forall i :: 0 <= i < |records| ==> records[i].embeddings.Some? && Tabled(records[i].embeddings.value)
  }

  ghost function RecordsOf(records: seq<CD.EventOnDisk>, medium: Medium): seq<Value>
    requires Drawn(records)
  {
    seq(|records|, i requires 0 <= i < |records| => RecordOf(records[i], medium))
  }

  function IdValues(ids: seq<Text>): (r: seq<Value>)
    ensures |r| == |ids| && forall i :: 0 <= i < |r| ==> r[i] == Str(ids[i])
  {
    if ids == [] then [] else [Str(ids[0])] + IdValues(ids[1..])
  }

  function OptionalValue(o: Option<Text>): Value {
    if o.None? then Undefined else Str(o.value)
  }

  ghost function DeltaFieldValue(d: DiskDelta, root: RootText, medium: Medium, k: Text): Value
    requires AllPlain(d.addedRecords)
  {
    if k == SCHEMA_VERSION then Str(d.schemaVersion)
    else if k == PREVIOUS_ROOT then Str(root(d.previousRoot))
    else if k == NEXT_ROOT then Str(root(d.nextRoot))
    else if k == ADDED_IDS then Array(IdValues(d.addedIds))
    else if k == ADDED_RECORDS then Array(RecordsOf(d.addedRecords, medium))
    else if k == REMOVED_IDS then Array(IdValues(d.removedIds))
    else if k == PROVENANCE then ProvenanceOf(d.provenance)
    else if k == BI_ENCODER then BiEncoderOf(d.biEncoder)
    else if k == EPOCH then Int(d.epoch)
    else if k == CORPUS_EPOCH then Int(d.corpusEpoch)
    else if k == GENERATED_AT then Str(d.generatedAt)
    else if k == SIGNATURE then OptionalValue(d.signature)
    else OptionalValue(d.signerKeyId)
  }

  /** A value of the delta, in either medium. */
  ghost function DeltaOf(d: DiskDelta, root: RootText, medium: Medium): Value
    requires AllPlain(d.addedRecords)
  {
    ObjectOf(REQUIRED_KEYS + OPTIONAL_KEYS, DeltaValues(d, root, medium))
  }

  ghost function DeltaValues(d: DiskDelta, root: RootText, medium: Medium): Text -> Value
    requires AllPlain(d.addedRecords)
  {
    k => DeltaFieldValue(d, root, medium, k)
  }

  ghost predicate RecordsShowable(records: seq<CD.EventOnDisk>, medium: Medium)
    requires AllPlain(records)
  {
    forall i :: 0 <= i < |records| ==> EmbeddingsShowable(records[i].embeddings.value, medium)
  }

  lemma DeltaFieldShown(d: DiskDelta, root: RootText, medium: Medium, k: Text)
    requires Serializable(d) && RecordsShowable(d.addedRecords, medium) && k in REQUIRED_KEYS + OPTIONAL_KEYS
    ensures ShowsDeltaField(Field(k, DeltaFieldValue(d, root, medium, k)), d, root, medium)
  {
    if k == SCHEMA_VERSION || k == PREVIOUS_ROOT || k == NEXT_ROOT || k == ADDED_IDS {
    } else if k == ADDED_RECORDS {
      RecordsShown(d.addedRecords, medium);
    } else if k == REMOVED_IDS {
    } else if k == PROVENANCE {
      ProvenanceShown(d.provenance);
    } else if k == BI_ENCODER {
      BiEncoderShown(d.biEncoder);
    }
  }

  lemma RecordsShown(records: seq<CD.EventOnDisk>, medium: Medium)
    requires AllPlain(records) && RecordsShowable(records, medium)
    ensures ShowsRecords(Array(RecordsOf(records, medium)), records, medium)
  {
    forall i | 0 <= i < |records|
      ensures ShowsRecord(RecordsOf(records, medium)[i], records[i], medium)
    {
      RecordShown(records[i], medium);
    }
  }

  ghost predicate HasKeys(v: Value, keys: set<Text>) {
    && v.Object? && DistinctKeys(v.fields)
    && forall k :: k in keys ==> exists i :: 0 <= i < |v.fields| && v.fields[i].key == k
  }

  lemma HasOptional(v: Value)
    requires HasKeys(v, OPTIONAL_KEYS)
    ensures exists i :: 0 <= i < |v.fields| && v.fields[i].key == SIGNATURE
    ensures exists i :: 0 <= i < |v.fields| && v.fields[i].key == SIGNER_KEY_ID
  {
  }

  lemma FieldsShowDelta(v: Value, d: DiskDelta, root: RootText, medium: Medium)
    requires HasKeys(v, REQUIRED_KEYS) && HasKeys(v, OPTIONAL_KEYS)
    requires forall i :: 0 <= i < |v.fields| ==> ShowsDeltaField(v.fields[i], d, root, medium)
    ensures ShowsDelta(v, d, root, medium)
  {
    HasOptional(v);
  }

  /** Every serializable delta has a value, on disk and, where its hex is that of bytes, in memory. */
  lemma DeltaShown(d: DiskDelta, root: RootText, medium: Medium)
    requires Serializable(d) && RecordsShowable(d.addedRecords, medium)
    ensures ShowsDelta(DeltaOf(d, root, medium), d, root, medium)
  {
    var v := DeltaOf(d, root, medium);
    forall i | 0 <= i < |v.fields|
      ensures ShowsDeltaField(v.fields[i], d, root, medium)
    {
      DeltaFieldsShown(d, root, medium, i);
    }
    DeltaKeys(d, root, medium);
    FieldsShowDelta(v, d, root, medium);
  }

  lemma DeltaKeys(d: DiskDelta, root: RootText, medium: Medium)
    requires AllPlain(d.addedRecords)
    ensures HasKeys(DeltaOf(d, root, medium), REQUIRED_KEYS) && HasKeys(DeltaOf(d, root, medium), OPTIONAL_KEYS)
  {
    CoversPart(DeltaOf(d, root, medium), REQUIRED_KEYS, OPTIONAL_KEYS, DeltaValues(d, root, medium));
  }

  lemma CoversPart(v: Value, a: set<Text>, b: set<Text>, value: Text -> Value)
    requires v.Object? && Covers(v.fields, a + b, value)
    ensures HasKeys(v, a) && HasKeys(v, b)
  {
  }

  lemma DeltaFieldOf(d: DiskDelta, root: RootText, medium: Medium, i: nat)
    requires AllPlain(d.addedRecords) && i < |DeltaOf(d, root, medium).fields|
    ensures var f := DeltaOf(d, root, medium).fields[i];
            f.key in REQUIRED_KEYS + OPTIONAL_KEYS && f == Field(f.key, DeltaFieldValue(d, root, medium, f.key))
  {
  }

  lemma DeltaFieldsShown(d: DiskDelta, root: RootText, medium: Medium, i: nat)
    requires Serializable(d) && RecordsShowable(d.addedRecords, medium) && i < |DeltaOf(d, root, medium).fields|
    ensures ShowsDeltaField(DeltaOf(d, root, medium).fields[i], d, root, medium)
  {
    DeltaFieldOf(d, root, medium, i);
    DeltaFieldShown(d, root, medium, DeltaOf(d, root, medium).fields[i].key);
  }

  lemma TableShowable(v: Value, entries: map<Text, Text>, medium: Medium)
    requires ShowsTable(v, entries, medium)
    ensures AllShowable(entries, medium)
  {
    forall k | k in entries
      ensures Showable(entries[k], medium)
    {
      var i :| 0 <= i < |v.fields| && v.fields[i].key == k;
      HexShowable(v.fields[i].value, entries[k], medium);
    }
  }

  lemma HexShowable(v: Value, hex: Text, medium: Medium)
    requires ShowsHex(v, hex, medium)
    ensures Showable(hex, medium)
  {
    if medium == Memory {
      CD.BareHexIsLower(v.bytes);
    }
  }

  lemma ShownEmbedding(v: Value, e: CD.EmbeddingsOnDisk, medium: Medium, k: Text) returns (value: Value)
    requires ShowsEmbeddings(v, e, medium) && k in EMBEDDINGS_KEYS
    ensures !value.Undefined? && ShowsEmbeddingsField(Field(k, value), e, medium)
  {
    var i :| 0 <= i < |v.fields| && v.fields[i].key == k;
    value := v.fields[i].value;
  }

  lemma KeysOfEmbeddings()
    ensures |MODEL_ID| == 7 && |REVISION| == 8 && |LAYOUT| == 6 && |QUERY| == 5 && |PER_TRUTH| == 8
            && |PER_NEGATIVE| == 11 && REVISION != PER_TRUTH
  {
    assert REVISION[0] != PER_TRUTH[0];
  }

  lemma EmbeddingsWereShowable(v: Value, e: CD.EmbeddingsOnDisk, medium: Medium)
    requires ShowsEmbeddings(v, e, medium)
    ensures EmbeddingsShowable(e, medium)
  {
    KeysOfEmbeddings();
    var layout := ShownEmbedding(v, e, medium, LAYOUT);
    var query := ShownEmbedding(v, e, medium, QUERY);
    var truths := ShownEmbedding(v, e, medium, PER_TRUTH);
    var negatives := ShownEmbedding(v, e, medium, PER_NEGATIVE);
    HexShowable(query, e.query, medium);
    TableShowable(truths, e.perTruth.entries, medium);
    TableShowable(negatives, e.perNegative.entries, medium);
  }

  lemma RecordWasShowable(v: Value, e: CD.EventOnDisk, medium: Medium)
    requires ShowsRecord(v, e, medium)
    ensures EmbeddingsShowable(e.embeddings.value, medium)
  {
    KeysOfARecord();
    var i :| 0 <= i < |v.fields| && v.fields[i].key == EMBEDDINGS;
    assert ShowsRecordField(v.fields[i], e, medium);
    EmbeddingsWereShowable(v.fields[i].value, e.embeddings.value, medium);
  }

  lemma ShownRecords(v: Value, d: DiskDelta, root: RootText, medium: Medium) returns (records: Value)
    requires ShowsDelta(v, d, root, medium)
    ensures ShowsRecords(records, d.addedRecords, medium)
  {
    KeysOfADelta();
    var i :| 0 <= i < |v.fields| && v.fields[i].key == ADDED_RECORDS;
    assert ShowsDeltaField(v.fields[i], d, root, medium);
    records := v.fields[i].value;
  }

  lemma RecordsWereShowable(v: Value, d: DiskDelta, root: RootText, medium: Medium)
    requires Serializable(d) && ShowsDelta(v, d, root, medium)
    ensures RecordsShowable(d.addedRecords, medium)
  {
    var records := ShownRecords(v, d, root, medium);
    forall i | 0 <= i < |d.addedRecords|
      ensures EmbeddingsShowable(d.addedRecords[i].embeddings.value, medium)
    {
      RecordWasShowable(records.elements[i], d.addedRecords[i], medium);
    }
  }

  /** A serializable delta has a value in a medium exactly when its hex stands for bytes there: on disk
      always, in memory when the hex is bare and lower case. */
  lemma HasValueIff(d: DiskDelta, root: RootText, medium: Medium)
    requires Serializable(d)
    ensures (exists v :: ShowsDelta(v, d, root, medium)) <==> RecordsShowable(d.addedRecords, medium)
    ensures medium == Disk ==> RecordsShowable(d.addedRecords, medium)
  {
    if RecordsShowable(d.addedRecords, medium) {
      DeltaShown(d, root, medium);
    }
    forall v | ShowsDelta(v, d, root, medium)
      ensures RecordsShowable(d.addedRecords, medium)
    {
      RecordsWereShowable(v, d, root, medium);
    }
  }

  lemma {:induction false} RecordAt(records: seq<CD.Event>, i: nat)
    requires i < |records|
    ensures |CD.RecordsToDisk(records)| == |records| && CD.RecordsToDisk(records)[i] == CD.EventToDisk(records[i])
  {
    if i > 0 {
      RecordAt(records[1..], i - 1);
    } else if |records| > 1 {
      RecordAt(records[1..], 0);
    }
  }

  lemma EventShowable(e: CD.Event, medium: Medium)
    requires !e.embeddings.layout.Undefined?
    ensures EmbeddingsShowable(CD.EventToDisk(e).embeddings.value, medium)
  {
    BytesShown(e.embeddings.query);
    forall k | k in e.embeddings.perTruth
      ensures Showable(BareHex(e.embeddings.perTruth[k]), medium)
    {
      BytesShown(e.embeddings.perTruth[k]);
    }
    forall k | k in e.embeddings.perNegative
      ensures Showable(BareHex(e.embeddings.perNegative[k]), medium)
    {
      BytesShown(e.embeddings.perNegative[k]);
    }
  }

  /** An in-memory delta that serializes has values in both media. */
  lemma MemoryDeltaShown(d: CD.Delta<CD.Event>, root: RootText)
    requires Serializable(CD.SerializeDelta(d))
    ensures InMemory(DeltaOf(CD.SerializeDelta(d), root, Memory), d, root)
    ensures ShowsDelta(DeltaOf(CD.SerializeDelta(d), root, Disk), CD.SerializeDelta(d), root, Disk)
  {
    var disk := CD.SerializeDelta(d);
    forall i, medium | 0 <= i < |disk.addedRecords|
      ensures EmbeddingsShowable(disk.addedRecords[i].embeddings.value, medium)
    {
      if d.addedRecords != [] { RecordAt(d.addedRecords, 0); }
      RecordAt(d.addedRecords, i);
      EventShowable(d.addedRecords[i], medium);
    }
    DeltaShown(disk, root, Memory);
    DeltaShown(disk, root, Disk);
  }
}
