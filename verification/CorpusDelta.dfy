/** Corpus deltas: built against a corpus, applied to it, and carried on disk. */
module CorpusDelta {
  import opened Wrappers
  import CanonicalJson
  import CorpusRoot

  type Text = CanonicalJson.Text
  type Bytes = seq<CanonicalJson.Byte>
  type Id = CorpusRoot.Id
  type Hash = CorpusRoot.Hash
  type Cache = CorpusRoot.Cache

  datatype Error =
    | WrongSplit(id: Id)
    | WrongBiEncoder(id: Id)
    | CacheRootMismatch
    | UnsupportedSchema
    | NoContinuity
    | BiEncoderPinMismatch
    | DuplicateRecord
    | MissingRecord
    | UnlistedRecord
    | NextRootMismatch
    | MalformedRecord(id: Id)
  datatype Outcome<+T> = Ok(value: T) | Err(error: Error)

  datatype Embeddings = Embeddings(modelId: Text, revision: Text, layout: CanonicalJson.Value,
                                   query: Bytes, perTruth: map<Text, Bytes>, perNegative: map<Text, Bytes>)
  /** `content` stands for the remaining fields of a record. */
  datatype Event = Event(id: Id, split: Text, content: seq<CanonicalJson.Field>, embeddings: Embeddings)

  datatype Provenance = Provenance(modelId: Text, revision: Text, runtime: Text, batchHash: Text)
  datatype BiEncoder = BiEncoder(modelId: Text, revision: Text, layout: CanonicalJson.Value)

  datatype Corpus = Corpus(events: seq<Event>, rootCache: Option<Cache>, corpusRoot: Hash, corpusEpoch: int,
                           biEncoder: BiEncoder, labelingModelId: Text, labelingModelRevision: Text)

  /** The code units of an ASCII literal. */
  function Name(s: string): (t: Text)
    ensures |t| == |s| && forall i :: 0 <= i < |s| ==> t[i] == CodeUnit(s[i])
  {
    seq(|s|, i requires 0 <= i < |s| => CodeUnit(s[i]))
  }

  function CodeUnit(c: char): CanonicalJson.Unit {
    if (c as int) < 0x10000 then c as int else 0
  }

  const DELTA_V1: Text := Name("coretex.corpus-delta.v1")

  /** In memory the records are `Event`; in the file they are `EventOnDisk`. */
  datatype Delta<Record> = Delta(schemaVersion: Text, previousRoot: Hash, nextRoot: Hash, addedIds: seq<Id>,
                                 addedRecords: seq<Record>, removedIds: seq<Id>, provenance: Provenance,
                                 biEncoder: BiEncoder, epoch: int, corpusEpoch: int, generatedAt: Text,
                                 signature: Option<Text>, signerKeyId: Option<Text>)

  /** Hashing and the split rule, as given functions. */
  datatype Env = Env(combine: CorpusRoot.Combine, leafHash: Event -> Hash, expectedSplit: (Id, int) -> Text)

  // ── records and roots ────────────────────────────────────────────────────────

  function IdsOf(events: seq<Event>): (r: set<Id>)
    ensures forall id :: id in r <==> exists i :: 0 <= i < |events| && events[i].id == id
  {
    set i | 0 <= i < |events| :: events[i].id
  }

  function SetOf(ids: seq<Id>): set<Id> {
    set id | id in ids
  }

  /** Records whose id is not in `out`, in order. */
  function Survivors(events: seq<Event>, out: set<Id>): (r: seq<Event>)
    ensures forall e :: e in r <==> e in events && e.id !in out
  {
    if events == [] then []
    else
      assert events == [events[0]] + events[1..];
      if events[0].id in out then Survivors(events[1..], out)
      else [events[0]] + Survivors(events[1..], out)
  }

  function LeafOf(env: Env, e: Event): CorpusRoot.Leaf {
    CorpusRoot.Leaf(e.id, env.leafHash(e))
  }

  function Leaves(env: Env, events: seq<Event>): (r: seq<CorpusRoot.Leaf>)
    ensures |r| == |events| && forall i :: 0 <= i < |r| ==> r[i] == LeafOf(env, events[i])
  {
    if events == [] then [] else [LeafOf(env, events[0])] + Leaves(env, events[1..])
  }

  /** buildCorpusRootLeafCache over the records. */
  function FullCache(env: Env, events: seq<Event>): Cache {
    CorpusRoot.CacheOf(env.combine, CorpusRoot.SortById(Leaves(env, events)))
  }

  function ComputeRoot(env: Env, events: seq<Event>): Hash {
    FullCache(env, events).root
  }

  function UpdatedCache(env: Env, cache: Cache, additions: seq<Event>, removals: seq<Id>): Cache {
    CorpusRoot.CacheOf(env.combine, CorpusRoot.UpdatedLeaves(cache.leaves, Leaves(env, additions), removals))
  }

  /** Every supplied cache is the cache of the corpus' records. */
  predicate CacheFits(env: Env, cache: Option<Cache>, events: seq<Event>) {
    cache.Some? ==> cache.value == FullCache(env, events)
  }

  lemma {:induction false} LeavesWithout(env: Env, events: seq<Event>, out: set<Id>)
    ensures CorpusRoot.Without(Leaves(env, events), out) == Leaves(env, Survivors(events, out))
  {
    if events != [] {
      LeavesWithout(env, events[1..], out);
      assert Leaves(env, events)[1..] == Leaves(env, events[1..]);
      if events[0].id !in out {
        assert Survivors(events, out)[1..] == Survivors(events[1..], out);
      }
    }
  }

  lemma LeavesAppend(env: Env, a: seq<Event>, b: seq<Event>)
    ensures Leaves(env, a + b) == Leaves(env, a) + Leaves(env, b)
  {
  }

  lemma LeavesIds(env: Env, events: seq<Event>)
    ensures CorpusRoot.Ids(Leaves(env, events)) == IdsOf(events)
  {
    var leaves := Leaves(env, events);
    assert forall i :: 0 <= i < |events| ==> events[i].id == leaves[i].id;
    assert forall id :: id in CorpusRoot.Ids(leaves) <==> id in IdsOf(events);
  }

  lemma ReplacedIds(env: Env, additions: seq<Event>, removals: seq<Id>)
    ensures CorpusRoot.Replaced(Leaves(env, additions), removals) == SetOf(removals) + IdsOf(additions)
  {
    LeavesIds(env, additions);
  }

  /** Updating a cache that fits gives the cache of the edited records. */
  lemma UpdatedCacheFits(env: Env, events: seq<Event>, additions: seq<Event>, removals: seq<Id>)
    ensures UpdatedCache(env, FullCache(env, events), additions, removals) ==
            FullCache(env, Survivors(events, SetOf(removals) + IdsOf(additions)) + additions)
  {
    var out := SetOf(removals) + IdsOf(additions);
    ReplacedIds(env, additions, removals);
    CorpusRoot.UpdateIsRebuild(Leaves(env, events), Leaves(env, additions), out);
    LeavesWithout(env, events, out);
    LeavesAppend(env, Survivors(events, out), additions);
  }

  // ── build ────────────────────────────────────────────────────────────────────

  predicate GoodSplit(env: Env, corpus: Corpus, e: Event) {
    e.split == env.expectedSplit(e.id, corpus.corpusEpoch)
  }

  predicate GoodBiEncoder(corpus: Corpus, e: Event) {
    e.embeddings.modelId == corpus.biEncoder.modelId && e.embeddings.revision == corpus.biEncoder.revision
  }

  predicate GoodRecord(env: Env, corpus: Corpus, e: Event) {
    GoodSplit(env, corpus, e) && GoodBiEncoder(corpus, e)
  }

  /** The first bad record's error; building looks at the split first, applying at the bi-encoder. */
  function FirstBad(env: Env, corpus: Corpus, records: seq<Event>, building: bool): (r: Option<Error>)
    ensures r.None? <==> forall e :: e in records ==> GoodRecord(env, corpus, e)
  {
    if records == [] then None
    else
      var e := records[0];
      assert records == [e] + records[1..];
      if GoodRecord(env, corpus, e) then FirstBad(env, corpus, records[1..], building)
      else if (building || GoodBiEncoder(corpus, e)) && !GoodSplit(env, corpus, e) then Some(WrongSplit(e.id))
      else Some(WrongBiEncoder(e.id))
  }

  /** Which records a build adds: those whose id is not among the remaining ones. */
  function NewAdditions(corpus: Corpus, additions: seq<Event>, removals: seq<Id>): seq<Event> {
    Survivors(additions, IdsOf(Survivors(corpus.events, SetOf(removals))))
  }

  function KnownIds(ids: seq<Id>, known: set<Id>): (r: seq<Id>)
    ensures forall id :: id in r <==> id in ids && id in known
  {
    if ids == [] then []
    else
      assert ids == [ids[0]] + ids[1..];
      if ids[0] in known then [ids[0]] + KnownIds(ids[1..], known) else KnownIds(ids[1..], known)
  }

  function Ids(events: seq<Event>): (r: seq<Id>)
    ensures |r| == |events| && forall i :: 0 <= i < |r| ==> r[i] == events[i].id
  {
    seq(|events|, i requires 0 <= i < |events| => events[i].id)
  }

  datatype Labels = Labels(epoch: int, provenance: Provenance, generatedAt: Text)

  function Either(a: Option<Cache>, b: Option<Cache>): Option<Cache> {
    if a.Some? then a else b
  }

  /** buildCorpusDelta. */
  function Build(env: Env, corpus: Corpus, additions: seq<Event>, removals: seq<Id>, labels: Labels,
                 previousRootCache: Option<Cache>): Outcome<Delta<Event>> {
    var remaining := Survivors(corpus.events, SetOf(removals));
    var added := NewAdditions(corpus, additions, removals);
    var bad := FirstBad(env, corpus, added, true);
    var cache := Either(previousRootCache, corpus.rootCache);
    if bad.Some? then Err(bad.value)
    else if cache.Some? && cache.value.root != corpus.corpusRoot then Err(CacheRootMismatch)
    else
      var nextRoot := if cache.Some? then UpdatedCache(env, cache.value, added, removals).root
                      else ComputeRoot(env, remaining + added);
      Ok(Delta(DELTA_V1, corpus.corpusRoot, nextRoot, Ids(added), added, KnownIds(removals, IdsOf(corpus.events)),
               labels.provenance, corpus.biEncoder, labels.epoch, corpus.corpusEpoch, labels.generatedAt, None, None))
  }

  // ── apply ────────────────────────────────────────────────────────────────────

  datatype ApplyOptions = ApplyOptions(rootCache: Option<Cache>, attachRootCache: bool, verifyRoot: bool)

  predicate DistinctIds(events: seq<Event>) {
    forall i, j :: 0 <= i < j < |events| ==> events[i].id != events[j].id
  }

  function NextEvents(corpus: Corpus, d: Delta<Event>): seq<Event> {
    Survivors(corpus.events, SetOf(d.removedIds) + SetOf(d.addedIds)) + d.addedRecords
  }

  /** The structural checks of applyCorpusDelta, in order. */
  function DeltaError(env: Env, corpus: Corpus, d: Delta<Event>): Option<Error> {
    if d.schemaVersion != DELTA_V1 then Some(UnsupportedSchema)
    else if d.previousRoot != corpus.corpusRoot then Some(NoContinuity)
    else if d.biEncoder.modelId != corpus.biEncoder.modelId || d.biEncoder.revision != corpus.biEncoder.revision then
      Some(BiEncoderPinMismatch)
    else if !DistinctIds(d.addedRecords) then Some(DuplicateRecord)
    else if !(SetOf(d.addedIds) <= IdsOf(d.addedRecords)) then Some(MissingRecord)
    else if !(IdsOf(d.addedRecords) <= SetOf(d.addedIds)) then Some(UnlistedRecord)
    else FirstBad(env, corpus, d.addedRecords, false)
  }

  /** Root checking: by the cache if there is one, else from scratch if asked to. */
  function RootError(env: Env, corpus: Corpus, d: Delta<Event>, cache: Option<Cache>, verifyRoot: bool): Option<Error> {
    if cache.Some? then
      if cache.value.root != corpus.corpusRoot then Some(CacheRootMismatch)
      else if UpdatedCache(env, cache.value, d.addedRecords, d.removedIds).root != d.nextRoot
        then Some(NextRootMismatch)
      else None
    else if verifyRoot && ComputeRoot(env, NextEvents(corpus, d)) != d.nextRoot then Some(NextRootMismatch)
    else None
  }

  /** applyCorpusDelta. */
  function Apply(env: Env, corpus: Corpus, d: Delta<Event>, options: ApplyOptions): Outcome<Corpus> {
    var bad := DeltaError(env, corpus, d);
    var cache := Either(options.rootCache, corpus.rootCache);
    var wrongRoot := RootError(env, corpus, d, cache, options.verifyRoot);
    if bad.Some? then Err(bad.value)
    else if wrongRoot.Some? then Err(wrongRoot.value)
    else
      var nextCache := if options.attachRootCache && cache.Some?
                       then Some(UpdatedCache(env, cache.value, d.addedRecords, d.removedIds)) else None;
      Ok(Corpus(NextEvents(corpus, d), nextCache, d.nextRoot, corpus.corpusEpoch, corpus.biEncoder,
                d.provenance.modelId, d.provenance.revision))
  }

  // ── what a built delta does ──────────────────────────────────────────────────

  lemma {:induction false} SurvivorsAgree(events: seq<Event>, out1: set<Id>, out2: set<Id>)
    requires forall e :: e in events ==> (e.id in out1 <==> e.id in out2)
    ensures Survivors(events, out1) == Survivors(events, out2)
  {
    if events != [] {
      assert events[0] in events;
      assert forall e :: e in events[1..] ==> e in events;
      SurvivorsAgree(events[1..], out1, out2);
    }
  }

  lemma IdOfMember(events: seq<Event>, e: Event)
    requires e in events
    ensures e.id in IdsOf(events)
  {
  }

  /** Dropping what the delta lists leaves exactly what the removals left. */
  lemma BuiltKeeps(corpus: Corpus, additions: seq<Event>, removals: seq<Id>)
    ensures var added := NewAdditions(corpus, additions, removals);
            Survivors(corpus.events, SetOf(KnownIds(removals, IdsOf(corpus.events))) + SetOf(Ids(added))) ==
            Survivors(corpus.events, SetOf(removals)) &&
            Survivors(corpus.events, SetOf(removals) + IdsOf(added)) == Survivors(corpus.events, SetOf(removals))
  {
    var remaining := Survivors(corpus.events, SetOf(removals));
    var added := NewAdditions(corpus, additions, removals);
    var listed := SetOf(KnownIds(removals, IdsOf(corpus.events))) + SetOf(Ids(added));
    AddedSet(added);
    forall e | e in corpus.events
      ensures e.id in listed <==> e.id in SetOf(removals)
      ensures e.id in SetOf(removals) + IdsOf(added) <==> e.id in SetOf(removals)
    {
      IdOfMember(corpus.events, e);
      if e.id in IdsOf(added) {
        var i :| 0 <= i < |added| && added[i].id == e.id;
        assert added[i] in added;
        if e in remaining {
          IdOfMember(remaining, e);
        }
      }
    }
    SurvivorsAgree(corpus.events, listed, SetOf(removals));
    SurvivorsAgree(corpus.events, SetOf(removals) + IdsOf(added), SetOf(removals));
  }

  lemma AddedSet(added: seq<Event>)
    ensures SetOf(Ids(added)) == IdsOf(added)
  {
    forall id | id in IdsOf(added)
      ensures id in Ids(added)
    {
      var i :| 0 <= i < |added| && added[i].id == id;
      assert Ids(added)[i] == id;
    }
    assert forall id :: id in SetOf(Ids(added)) <==> id in IdsOf(added);
  }

  /** The root a build announces is the root of its records, cached or not. */
  lemma BuiltRoot(env: Env, corpus: Corpus, additions: seq<Event>, removals: seq<Id>, labels: Labels,
                  cache: Option<Cache>)
    requires CacheFits(env, cache, corpus.events) && CacheFits(env, corpus.rootCache, corpus.events)
    requires Build(env, corpus, additions, removals, labels, cache).Ok?
    ensures Build(env, corpus, additions, removals, labels, cache).value.nextRoot ==
            ComputeRoot(env, Survivors(corpus.events, SetOf(removals)) + NewAdditions(corpus, additions, removals))
  {
    BuiltKeeps(corpus, additions, removals);
    UpdatedCacheFits(env, corpus.events, NewAdditions(corpus, additions, removals), removals);
  }

  /** An accepted delta, whoever made it: the next corpus is the old one without the removed and the
      replaced records, then the added ones; its root, if checked at all, is the root of those
      records, and the cache handed on is theirs. */
  lemma AppliedIsSound(env: Env, corpus: Corpus, d: Delta<Event>, options: ApplyOptions)
    requires CacheFits(env, corpus.rootCache, corpus.events) && CacheFits(env, options.rootCache, corpus.events)
    requires Apply(env, corpus, d, options).Ok?
    ensures var next := Apply(env, corpus, d, options).value;
            && d.previousRoot == corpus.corpusRoot && next.corpusRoot == d.nextRoot
            && next.events == Survivors(corpus.events, SetOf(d.removedIds) + IdsOf(d.addedRecords)) + d.addedRecords
            && CacheFits(env, next.rootCache, next.events)
            && (Either(options.rootCache, corpus.rootCache).Some? || options.verifyRoot ==>
                  next.corpusRoot == ComputeRoot(env, next.events))
            && (DistinctIds(corpus.events) ==> DistinctIds(next.events))
  {
    assert SetOf(d.addedIds) == IdsOf(d.addedRecords);
    UpdatedCacheFits(env, corpus.events, d.addedRecords, d.removedIds);
    if DistinctIds(corpus.events) {
      NextDistinct(corpus.events, SetOf(d.removedIds) + IdsOf(d.addedRecords), d.addedRecords);
    }
  }

  lemma {:induction false} SurvivorsDistinct(events: seq<Event>, out: set<Id>)
    requires DistinctIds(events)
    ensures DistinctIds(Survivors(events, out))
  {
    if events != [] {
      var rest := Survivors(events[1..], out);
      SurvivorsDistinct(events[1..], out);
      forall j | 0 <= j < |rest|
        ensures rest[j].id != events[0].id
      {
        assert rest[j] in events[1..];
        var i :| 0 <= i < |events[1..]| && events[1..][i] == rest[j];
        assert events[i + 1] == rest[j];
      }
    }
  }

  lemma NextDistinct(events: seq<Event>, out: set<Id>, added: seq<Event>)
    requires DistinctIds(events) && DistinctIds(added) && IdsOf(added) <= out
    ensures DistinctIds(Survivors(events, out) + added)
  {
    var kept := Survivors(events, out);
    SurvivorsDistinct(events, out);
    forall i, j | 0 <= i < |kept| && 0 <= j < |added|
      ensures kept[i].id != added[j].id
    {
      assert kept[i] in kept && added[j].id in IdsOf(added);
    }
  }

  /** A built delta passes the structural checks exactly when the new ids are distinct. */
  lemma BuiltStructure(env: Env, corpus: Corpus, additions: seq<Event>, removals: seq<Id>, labels: Labels,
                       cache: Option<Cache>)
    requires Build(env, corpus, additions, removals, labels, cache).Ok?
    ensures DeltaError(env, corpus, Build(env, corpus, additions, removals, labels, cache).value) ==
            if DistinctIds(NewAdditions(corpus, additions, removals)) then None else Some(DuplicateRecord)
  {
    AddedSet(NewAdditions(corpus, additions, removals));
  }

  lemma BuiltNext(env: Env, corpus: Corpus, additions: seq<Event>, removals: seq<Id>, labels: Labels,
                  cache: Option<Cache>)
    requires Build(env, corpus, additions, removals, labels, cache).Ok?
    ensures NextEvents(corpus, Build(env, corpus, additions, removals, labels, cache).value) ==
            Survivors(corpus.events, SetOf(removals)) + NewAdditions(corpus, additions, removals)
  {
    BuiltKeeps(corpus, additions, removals);
  }

  /** A built delta passes the root check, cached or not. */
  lemma BuiltRootPasses(env: Env, corpus: Corpus, additions: seq<Event>, removals: seq<Id>, labels: Labels,
                        cache: Option<Cache>, applyCache: Option<Cache>, verifyRoot: bool)
    requires corpus.corpusRoot == ComputeRoot(env, corpus.events)
    requires CacheFits(env, cache, corpus.events) && CacheFits(env, corpus.rootCache, corpus.events)
    requires CacheFits(env, applyCache, corpus.events)
    requires Build(env, corpus, additions, removals, labels, cache).Ok?
    ensures RootError(env, corpus, Build(env, corpus, additions, removals, labels, cache).value,
                      applyCache, verifyRoot) == None
  {
    var d := Build(env, corpus, additions, removals, labels, cache).value;
    BuiltRoot(env, corpus, additions, removals, labels, cache);
    BuiltNext(env, corpus, additions, removals, labels, cache);
    AddedSet(d.addedRecords);
    UpdatedCacheFits(env, corpus.events, d.addedRecords, d.removedIds);
  }

  /** A build succeeds exactly when every new record has the corpus' split and bi-encoder; its delta
      then applies exactly when the new ids are distinct, and gives the old corpus without the
      removals followed by the new additions, under their own root. */
  lemma BuildThenApply(env: Env, corpus: Corpus, additions: seq<Event>, removals: seq<Id>, labels: Labels,
                       cache: Option<Cache>, options: ApplyOptions)
    requires corpus.corpusRoot == ComputeRoot(env, corpus.events)
    requires CacheFits(env, cache, corpus.events) && CacheFits(env, corpus.rootCache, corpus.events)
    requires CacheFits(env, options.rootCache, corpus.events)
    ensures var added := NewAdditions(corpus, additions, removals);
            var built := Build(env, corpus, additions, removals, labels, cache);
            && (built.Ok? <==> forall e :: e in added ==> GoodRecord(env, corpus, e))
            && (built.Ok? ==>
                  var applied := Apply(env, corpus, built.value, options);
                  && (applied.Ok? <==> DistinctIds(added))
                  && (applied.Err? ==> applied.error == DuplicateRecord)
                  && (applied.Ok? ==>
                        && applied.value.events == Survivors(corpus.events, SetOf(removals)) + added
                        && applied.value.corpusRoot == built.value.nextRoot == ComputeRoot(env, applied.value.events)))
  {
    var built := Build(env, corpus, additions, removals, labels, cache);
    if built.Ok? {
      BuiltStructure(env, corpus, additions, removals, labels, cache);
      BuiltRootPasses(env, corpus, additions, removals, labels, cache, Either(options.rootCache, corpus.rootCache),
                      options.verifyRoot);
      BuiltNext(env, corpus, additions, removals, labels, cache);
      BuiltRoot(env, corpus, additions, removals, labels, cache);
    }
  }

  // ── exactly when, and exactly what ───────────────────────────────────────────

  /** Survivors stand in the order they stood in: the survivors of two stretches are those of the first, then
      those of the second, and a record alone survives exactly if its id is not out. */
  lemma {:induction false} SurvivorsInOrder(a: seq<Event>, b: seq<Event>, out: set<Id>, e: Event)
    ensures Survivors(a + b, out) == Survivors(a, out) + Survivors(b, out)
    ensures Survivors([e], out) == if e.id in out then [] else [e]
    decreases |a|
  {
    if a == [] {
      assert a + b == b;
    } else {
      assert (a + b)[1..] == a[1..] + b;
      SurvivorsInOrder(a[1..], b, out, e);
    }
  }

  /** Some record that the removals leave has the id. */
  ghost predicate Remains(corpus: Corpus, removals: seq<Id>, id: Id) {
    exists e :: e in corpus.events && e.id == id && e.id !in removals
  }

  /** What a build puts into its delta: the additions whose id is not that of a remaining record, their ids, the
      removals that name a record, the corpus' root and pins, the labels, and no signature. */
  lemma BuiltDelta(env: Env, corpus: Corpus, additions: seq<Event>, removals: seq<Id>, labels: Labels,
                   cache: Option<Cache>)
    requires Build(env, corpus, additions, removals, labels, cache).Ok?
    ensures var d := Build(env, corpus, additions, removals, labels, cache).value;
            && (forall e :: e in d.addedRecords <==> e in additions && !Remains(corpus, removals, e.id))
            && |d.addedIds| == |d.addedRecords|
            && (forall i :: 0 <= i < |d.addedIds| ==> d.addedIds[i] == d.addedRecords[i].id)
            && (forall id :: id in d.removedIds <==> id in removals && exists e :: e in corpus.events && e.id == id)
            && d.schemaVersion == Name("coretex.corpus-delta.v1") && d.previousRoot == corpus.corpusRoot
            && d.biEncoder == corpus.biEncoder && d.corpusEpoch == corpus.corpusEpoch
            && d.epoch == labels.epoch && d.provenance == labels.provenance && d.generatedAt == labels.generatedAt
            && d.signature.None? && d.signerKeyId.None?
  {
    var remaining := Survivors(corpus.events, SetOf(removals));
    forall e | e in additions
      ensures e.id in IdsOf(remaining) <==> Remains(corpus, removals, e.id)
    {
      RemainingId(corpus, removals, e.id);
    }
    forall id
      ensures id in IdsOf(corpus.events) <==> exists e :: e in corpus.events && e.id == id
    {
      IdNamed(corpus.events, id);
    }
  }

  lemma IdNamed(events: seq<Event>, id: Id)
    ensures id in IdsOf(events) <==> exists e :: e in events && e.id == id
  {
    if id in IdsOf(events) {
      var i :| 0 <= i < |events| && events[i].id == id;
      assert events[i] in events;
    }
    if e :| e in events && e.id == id {
      var i :| 0 <= i < |events| && events[i] == e;
    }
  }

  lemma RemainingId(corpus: Corpus, removals: seq<Id>, id: Id)
    ensures id in IdsOf(Survivors(corpus.events, SetOf(removals))) <==> Remains(corpus, removals, id)
  {
    var remaining := Survivors(corpus.events, SetOf(removals));
    IdNamed(remaining, id);
    if e :| e in remaining && e.id == id {
      assert e in corpus.events && e.id !in removals;
    }
    if e :| e in corpus.events && e.id == id && e.id !in removals {
      assert e in remaining;
    }
  }

  /** The delta's structure is what the corpus can take: its schema, the corpus' root and pins, as many ids as
      records, each listed, and records that belong there. */
  ghost predicate Fits(env: Env, corpus: Corpus, d: Delta<Event>) {
    && d.schemaVersion == Name("coretex.corpus-delta.v1") && d.previousRoot == corpus.corpusRoot
    && d.biEncoder.modelId == corpus.biEncoder.modelId && d.biEncoder.revision == corpus.biEncoder.revision
    && DistinctIds(d.addedRecords)
    && (forall id :: id in d.addedIds <==> exists e :: e in d.addedRecords && e.id == id)
    && (forall e :: e in d.addedRecords ==>
          && e.split == env.expectedSplit(e.id, corpus.corpusEpoch)
          && e.embeddings.modelId == corpus.biEncoder.modelId && e.embeddings.revision == corpus.biEncoder.revision)
  }

  lemma ListedIds(d: Delta<Event>)
    ensures SetOf(d.addedIds) == IdsOf(d.addedRecords)
            <==> forall id :: id in d.addedIds <==> exists e :: e in d.addedRecords && e.id == id
  {
    forall id
      ensures id in IdsOf(d.addedRecords) <==> exists e :: e in d.addedRecords && e.id == id
    {
      IdNamed(d.addedRecords, id);
    }
    if forall id :: id in d.addedIds <==> exists e :: e in d.addedRecords && e.id == id {
      assert forall id :: id in SetOf(d.addedIds) <==> id in IdsOf(d.addedRecords);
    } else {
      var id :| !(id in d.addedIds <==> exists e :: e in d.addedRecords && e.id == id);
      assert !(id in SetOf(d.addedIds) <==> id in IdsOf(d.addedRecords));
    }
  }

  lemma FitsIff(env: Env, corpus: Corpus, d: Delta<Event>)
    ensures DeltaError(env, corpus, d).None? <==> Fits(env, corpus, d)
  {
    ListedIds(d);
  }

  /** The announced root is that of the next records, whenever there is a cache or checking is asked for. */
  ghost predicate RootFits(env: Env, corpus: Corpus, d: Delta<Event>, cached: bool, verifyRoot: bool) {
    && (cached ==> ComputeRoot(env, corpus.events) == corpus.corpusRoot)
    && (cached || verifyRoot ==>
          ComputeRoot(env, Survivors(corpus.events, SetOf(d.removedIds) + IdsOf(d.addedRecords)) + d.addedRecords)
          == d.nextRoot)
  }

  lemma RootFitsIff(env: Env, corpus: Corpus, d: Delta<Event>, cache: Option<Cache>, verifyRoot: bool)
    requires CacheFits(env, cache, corpus.events) && SetOf(d.addedIds) == IdsOf(d.addedRecords)
    ensures RootError(env, corpus, d, cache, verifyRoot).None? <==> RootFits(env, corpus, d, cache.Some?, verifyRoot)
  {
    UpdatedCacheFits(env, corpus.events, d.addedRecords, d.removedIds);
  }

  /** An accepted delta is one that fits and whose root fits. */
  lemma AppliesIff(env: Env, corpus: Corpus, d: Delta<Event>, options: ApplyOptions)
    requires CacheFits(env, corpus.rootCache, corpus.events) && CacheFits(env, options.rootCache, corpus.events)
    ensures Apply(env, corpus, d, options).Ok? <==>
            && Fits(env, corpus, d)
            && RootFits(env, corpus, d, options.rootCache.Some? || corpus.rootCache.Some?, options.verifyRoot)
  {
    FitsIff(env, corpus, d);
    ListedIds(d);
    if Fits(env, corpus, d) {
      RootFitsIff(env, corpus, d, Either(options.rootCache, corpus.rootCache), options.verifyRoot);
    }
  }

  /** The rest of the next corpus: epoch and pins stay, the labels are the delta's, and a cache is handed on
      exactly if one was there and it is asked for. */
  lemma AppliedRest(env: Env, corpus: Corpus, d: Delta<Event>, options: ApplyOptions)
    requires Apply(env, corpus, d, options).Ok?
    ensures var next := Apply(env, corpus, d, options).value;
            && next.corpusEpoch == corpus.corpusEpoch && next.biEncoder == corpus.biEncoder
            && next.labelingModelId == d.provenance.modelId && next.labelingModelRevision == d.provenance.revision
            && (next.rootCache.Some? <==>
                  options.attachRootCache && (options.rootCache.Some? || corpus.rootCache.Some?))
  {
  }

  lemma {:induction false} BadRecordIs(env: Env, corpus: Corpus, records: seq<Event>, building: bool) returns (i: nat)
    requires FirstBad(env, corpus, records, building).Some?
    ensures i < |records| && forall j :: 0 <= j < i ==> GoodRecord(env, corpus, records[j])
    ensures var e := records[i];
            match FirstBad(env, corpus, records, building).value
            case WrongSplit(id) => id == e.id && !GoodSplit(env, corpus, e) && (building || GoodBiEncoder(corpus, e))
            case WrongBiEncoder(id) => id == e.id && !GoodBiEncoder(corpus, e)
                                       && (building ==> GoodSplit(env, corpus, e))
            case _ => false
  {
    if GoodRecord(env, corpus, records[0]) {
      i := BadRecordIs(env, corpus, records[1..], building);
      i := i + 1;
      assert forall j :: 0 < j < i ==> records[j] == records[1..][j - 1];
    } else {
      i := 0;
    }
  }

  /** The check that an error names has failed; a root is looked at only in a delta that fits. */
  ghost predicate RefusedFor(env: Env, corpus: Corpus, d: Delta<Event>, e: Error) {
    match e
    case UnsupportedSchema => d.schemaVersion != Name("coretex.corpus-delta.v1")
    case NoContinuity => d.previousRoot != corpus.corpusRoot
    case BiEncoderPinMismatch =>
      d.biEncoder.modelId != corpus.biEncoder.modelId || d.biEncoder.revision != corpus.biEncoder.revision
    case DuplicateRecord => !DistinctIds(d.addedRecords)
    case MissingRecord => exists id :: id in d.addedIds && id !in IdsOf(d.addedRecords)
    case UnlistedRecord => exists id :: id in IdsOf(d.addedRecords) && id !in d.addedIds
    case WrongSplit(id) => exists x :: x in d.addedRecords && x.id == id && !GoodSplit(env, corpus, x)
    case WrongBiEncoder(id) => exists x :: x in d.addedRecords && x.id == id && !GoodBiEncoder(corpus, x)
    case CacheRootMismatch => Fits(env, corpus, d) && ComputeRoot(env, corpus.events) != corpus.corpusRoot
    case NextRootMismatch => Fits(env, corpus, d) && ComputeRoot(env, NextEvents(corpus, d)) != d.nextRoot
    case MalformedRecord(_) => false
  }

  lemma StructureRefusal(env: Env, corpus: Corpus, d: Delta<Event>)
    requires DeltaError(env, corpus, d).Some?
    ensures RefusedFor(env, corpus, d, DeltaError(env, corpus, d).value)
  {
    if FirstBad(env, corpus, d.addedRecords, false).Some? {
      var i := BadRecordIs(env, corpus, d.addedRecords, false);
      assert d.addedRecords[i] in d.addedRecords;
    }
  }

  lemma RootRefusal(env: Env, corpus: Corpus, d: Delta<Event>, cache: Option<Cache>, verifyRoot: bool)
    requires CacheFits(env, cache, corpus.events) && SetOf(d.addedIds) == IdsOf(d.addedRecords)
    requires Fits(env, corpus, d) && RootError(env, corpus, d, cache, verifyRoot).Some?
    ensures RefusedFor(env, corpus, d, RootError(env, corpus, d, cache, verifyRoot).value)
  {
    UpdatedCacheFits(env, corpus.events, d.addedRecords, d.removedIds);
  }

  lemma RefusalMeans(env: Env, corpus: Corpus, d: Delta<Event>, options: ApplyOptions)
    requires CacheFits(env, corpus.rootCache, corpus.events) && CacheFits(env, options.rootCache, corpus.events)
    requires Apply(env, corpus, d, options).Err?
    ensures RefusedFor(env, corpus, d, Apply(env, corpus, d, options).error)
  {
    FitsIff(env, corpus, d);
    ListedIds(d);
    if DeltaError(env, corpus, d).Some? {
      StructureRefusal(env, corpus, d);
    } else {
      RootRefusal(env, corpus, d, Either(options.rootCache, corpus.rootCache), options.verifyRoot);
    }
  }

  // ── the loops ────────────────────────────────────────────────────────────────

  method FindBadRecord(env: Env, corpus: Corpus, records: seq<Event>, building: bool) returns (r: Option<Error>)
    ensures r == FirstBad(env, corpus, records, building)
  {
    for i := 0 to |records|
      invariant FirstBad(env, corpus, records, building) == FirstBad(env, corpus, records[i..], building)
    {
      var e := records[i];
      if building && !GoodSplit(env, corpus, e) { return Some(WrongSplit(e.id)); }
      if !GoodBiEncoder(corpus, e) { return Some(WrongBiEncoder(e.id)); }
      if !GoodSplit(env, corpus, e) { return Some(WrongSplit(e.id)); }
    }
    return None;
  }

  lemma InitDistinct(events: seq<Event>, i: nat)
    requires i < |events|
    ensures DistinctIds(events[..i + 1]) <==> DistinctIds(events[..i]) && events[i].id !in IdsOf(events[..i])
  {
    var more, init := events[..i + 1], events[..i];
    assert forall k :: 0 <= k < i ==> more[k] == init[k];
    if DistinctIds(init) && events[i].id !in IdsOf(init) {
      forall a, b | 0 <= a < b < |more|
        ensures more[a].id != more[b].id
      {
        assert more[a] == init[a] && init[a].id in IdsOf(init);
      }
    }
  }

  lemma InitIds(events: seq<Event>, i: nat)
    requires i < |events|
    ensures IdsOf(events[..i + 1]) == IdsOf(events[..i]) + {events[i].id}
  {
    var more, init := events[..i + 1], events[..i];
    assert forall k :: 0 <= k < i ==> more[k].id == init[k].id;
    assert more[i].id == events[i].id;
  }

  lemma SetGrows(ids: set<Id>, id: Id)
    ensures |ids + {id}| == if id in ids then |ids| else |ids| + 1
  {
    if id in ids {
      assert ids + {id} == ids;
    }
  }

  ghost predicate Gathered(records: seq<Event>, ids: set<Id>) {
    ids == IdsOf(records) && |ids| <= |records| && (|ids| == |records| <==> DistinctIds(records))
  }

  lemma GatherOne(records: seq<Event>, i: nat, ids: set<Id>)
    requires i < |records| && Gathered(records[..i], ids)
    ensures Gathered(records[..i + 1], ids + {records[i].id})
  {
    InitDistinct(records, i);
    InitIds(records, i);
    SetGrows(ids, records[i].id);
  }

  /** A map keyed by id is as large as the list exactly when no id repeats. */
  method RecordsById(records: seq<Event>) returns (ids: set<Id>)
    ensures ids == IdsOf(records)
    ensures |ids| == |records| <==> DistinctIds(records)
  {
    ids := {};
    for i := 0 to |records|
      invariant Gathered(records[..i], ids)
    {
      GatherOne(records, i, ids);
      ids := ids + {records[i].id};
    }
    assert records[..|records|] == records;
  }

  ghost predicate CacheConsistent(env: Env, cache: Option<Cache>) {
    cache.Some? ==> CorpusRoot.Consistent(env.combine, cache.value)
  }

  method BuildCorpusDelta(env: Env, corpus: Corpus, additions: seq<Event>, removals: seq<Id>, labels: Labels,
                          previousRootCache: Option<Cache>) returns (r: Outcome<Delta<Event>>)
    requires CacheConsistent(env, previousRootCache) && CacheConsistent(env, corpus.rootCache)
    ensures r == Build(env, corpus, additions, removals, labels, previousRootCache)
  {
    SurvivorsAll(corpus.events);
    var removalSet := SetOf(removals);
    var remaining := if removalSet != {} then Survivors(corpus.events, removalSet) else corpus.events;
    var added := Survivors(additions, IdsOf(remaining));
    var bad := FindBadRecord(env, corpus, added, true);
    if bad.Some? {
      return Err(bad.value);
    }
    var cache := Either(previousRootCache, corpus.rootCache);
    if cache.Some? && cache.value.root != corpus.corpusRoot {
      return Err(CacheRootMismatch);
    }
    var nextRoot: Hash;
    if cache.Some? {
      var updated := CorpusRoot.UpdateCorpusRootLeafCache(env.combine, cache.value, Leaves(env, added), removals);
      nextRoot := updated.value.root;
    } else {
      nextRoot := ComputeCorpusRoot(env, remaining + added);
    }
    r := Ok(Delta(DELTA_V1, corpus.corpusRoot, nextRoot, Ids(added), added, KnownIds(removals, IdsOf(corpus.events)),
                  labels.provenance, corpus.biEncoder, labels.epoch, corpus.corpusEpoch, labels.generatedAt,
                    None, None));
  }

  method ComputeCorpusRoot(env: Env, events: seq<Event>) returns (root: Hash)
    ensures root == ComputeRoot(env, events)
  {
    var cache := CorpusRoot.BuildCorpusRootLeafCacheFromLeaves(env.combine, Leaves(env, events));
    root := cache.value.root;
  }

  lemma {:induction false} SurvivorsAll(events: seq<Event>)
    ensures Survivors(events, {}) == events
  {
    if events != [] {
      SurvivorsAll(events[1..]);
    }
  }

  method CheckDelta(env: Env, corpus: Corpus, d: Delta<Event>) returns (r: Option<Error>)
    ensures r == DeltaError(env, corpus, d)
  {
    if d.schemaVersion != DELTA_V1 { return Some(UnsupportedSchema); }
    if d.previousRoot != corpus.corpusRoot { return Some(NoContinuity); }
    if d.biEncoder.modelId != corpus.biEncoder.modelId || d.biEncoder.revision != corpus.biEncoder.revision {
      return Some(BiEncoderPinMismatch);
    }
    var recordIds := RecordsById(d.addedRecords);
    if |recordIds| != |d.addedRecords| { return Some(DuplicateRecord); }
    for i := 0 to |d.addedIds|
      invariant forall k :: 0 <= k < i ==> d.addedIds[k] in recordIds
    {
      if d.addedIds[i] !in recordIds { 
        assert d.addedIds[i] in SetOf(d.addedIds);
        return Some(MissingRecord);
      }
    }
    for i := 0 to |d.addedRecords|
      invariant forall k :: 0 <= k < i ==> d.addedRecords[k].id in d.addedIds
    {
      if d.addedRecords[i].id !in d.addedIds {
        assert d.addedRecords[i].id in IdsOf(d.addedRecords);
        return Some(UnlistedRecord);
      }
    }
    r := FindBadRecord(env, corpus, d.addedRecords, false);
  }

  method ApplyCorpusDelta(env: Env, corpus: Corpus, d: Delta<Event>, options: ApplyOptions) returns (r: Outcome<Corpus>)
    requires CacheConsistent(env, options.rootCache) && CacheConsistent(env, corpus.rootCache)
    ensures r == Apply(env, corpus, d, options)
  {
    var bad := CheckDelta(env, corpus, d);
    if bad.Some? {
      return Err(bad.value);
    }
    var next := NextEvents(corpus, d);
    var cache := Either(options.rootCache, corpus.rootCache);
    var nextCache: Option<Cache> := None;
    if cache.Some? {
      if cache.value.root != corpus.corpusRoot {
        return Err(CacheRootMismatch);
      }
      var updated := CorpusRoot.UpdateCorpusRootLeafCache(env.combine, cache.value, Leaves(env, d.addedRecords),
                                                          d.removedIds);
      nextCache := Some(updated.value);
      if updated.value.root != d.nextRoot {
        return Err(NextRootMismatch);
      }
    } else if options.verifyRoot {
      var computed := ComputeCorpusRoot(env, next);
      if computed != d.nextRoot {
        return Err(NextRootMismatch);
      }
    }
    var attached := if options.attachRootCache then nextCache else None;
    r := Ok(Corpus(next, attached, d.nextRoot, corpus.corpusEpoch, corpus.biEncoder,
                   d.provenance.modelId, d.provenance.revision));
  }

  // ── disk ─────────────────────────────────────────────────────────────────────

  datatype DiskTable = NotAnObject | Entries(entries: map<Text, Text>)
  datatype EmbeddingsOnDisk = EmbeddingsOnDisk(modelId: Text, revision: Text, layout: CanonicalJson.Value,
                                               query: Text, perTruth: DiskTable, perNegative: DiskTable)
  datatype EventOnDisk = EventOnDisk(id: Id, split: Text, content: seq<CanonicalJson.Field>,
                                     embeddings: Option<EmbeddingsOnDisk>)

  predicate IsHexDigit(u: CanonicalJson.Unit) {
    0x30 <= u <= 0x39 || 0x41 <= u <= 0x46 || 0x61 <= u <= 0x66
  }

  function HexValue(u: CanonicalJson.Unit): (v: int)
    requires IsHexDigit(u)
    ensures 0 <= v < 16
  {
    if u <= 0x39 then u - 0x30 else if u <= 0x46 then u - 0x41 + 10 else u - 0x61 + 10
  }

  /** An optional 0x is dropped. */
  function Clean(hex: Text): Text {
    if |hex| >= 2 && hex[0] == 0x30 && hex[1] == 0x78 then hex[2..] else hex
  }

  predicate IsHex(t: Text) {
    |t| % 2 == 0 && forall i :: 0 <= i < |t| ==> IsHexDigit(t[i])
  }

  function ByteAt(t: Text, i: nat): CanonicalJson.Byte
    requires IsHex(t) && 2 * i < |t|
  {
    16 * HexValue(t[2 * i]) + HexValue(t[2 * i + 1])
  }

  function Unhex(hex: Text): (r: Option<Bytes>)
    ensures r.Some? <==> IsHex(Clean(hex))
    ensures r.Some? ==> |r.value| == |Clean(hex)| / 2
    ensures r.Some? ==> forall i :: 0 <= i < |r.value| ==> r.value[i] == ByteAt(Clean(hex), i)
  {
    var clean := Clean(hex);
    if !IsHex(clean) then None
    else Some(seq(|clean| / 2, i requires 0 <= i < |clean| / 2 => ByteAt(clean, i)))
  }

  method HexToUint8(hex: Text) returns (r: Option<Bytes>)
    ensures r == Unhex(hex)
  {
    var clean := Clean(hex);
    if !IsHex(clean) {
      return None;
    }
    var out := new CanonicalJson.Byte[|clean| / 2](_ => 0);
    for i := 0 to out.Length
      invariant forall k :: 0 <= k < i ==> out[k] == ByteAt(clean, k)
    {
      out[i] := ByteAt(clean, i);
    }
    assert out[..] == Unhex(hex).value;
    return Some(out[..]);
  }

  lemma {:induction false} BareHexAt(bytes: Bytes, i: nat)
    requires i < |bytes|
    ensures |CanonicalJson.BareHex(bytes)| == 2 * |bytes|
    ensures CanonicalJson.BareHex(bytes)[2 * i] == CanonicalJson.HexDigit(bytes[i] / 16)
    ensures CanonicalJson.BareHex(bytes)[2 * i + 1] == CanonicalJson.HexDigit(bytes[i] % 16)
  {
    var init := bytes[..|bytes| - 1];
    if init != [] {
      BareHexAt(init, if i < |init| then i else 0);
    }
  }

  lemma HexDigitValue(d: int)
    requires 0 <= d < 16
    ensures IsHexDigit(CanonicalJson.HexDigit(d)) && HexValue(CanonicalJson.HexDigit(d)) == d
    ensures CanonicalJson.HexDigit(d) != 0x78
  {
  }

  /** Reading back the hex of bytes gives the bytes; the hex is never mistaken for a 0x prefix. */
  lemma UnhexOfHex(bytes: Bytes)
    ensures Unhex(CanonicalJson.BareHex(bytes)) == Some(bytes)
  {
    var hex := CanonicalJson.BareHex(bytes);
    BareHexIsLower(bytes);
    LowerIsClean(hex);
    forall i | 0 <= i < |bytes|
      ensures |hex| == 2 * |bytes| && ByteAt(hex, i) == bytes[i]
    {
      BareHexAt(bytes, i);
      HexDigitValue(bytes[i] / 16);
      HexDigitValue(bytes[i] % 16);
    }
    assert bytes == [] ==> hex == [];
    assert Unhex(hex).value == bytes;
  }

  lemma LowerIsClean(t: Text)
    requires LowerHex(t)
    ensures Clean(t) == t && IsHex(t)
  {
  }

  predicate LowerHex(t: Text) {
    |t| % 2 == 0 && forall i :: 0 <= i < |t| ==> 0x30 <= t[i] <= 0x39 || 0x61 <= t[i] <= 0x66
  }

  lemma {:induction false} BareHexIsLower(bytes: Bytes)
    ensures LowerHex(CanonicalJson.BareHex(bytes))
  {
    if bytes != [] {
      BareHexIsLower(bytes[..|bytes| - 1]);
    }
  }

  /** The other way round holds exactly for lower-case text without a prefix. */
  lemma HexOfUnhex(hex: Text)
    requires Unhex(hex).Some?
    ensures CanonicalJson.BareHex(Unhex(hex).value) == hex <==> LowerHex(hex)
  {
    var bytes := Unhex(hex).value;
    BareHexIsLower(bytes);
    if LowerHex(hex) {
      assert Clean(hex) == hex;
      var back := CanonicalJson.BareHex(bytes);
      forall i | 0 <= i < |bytes|
        ensures |back| == |hex| && back[2 * i] == hex[2 * i] && back[2 * i + 1] == hex[2 * i + 1]
      {
        BareHexAt(bytes, i);
      }
      if bytes == [] {
        assert back == [];
      }
      forall k | 0 <= k < |hex|
        ensures back[k] == hex[k]
      {
        assert k == 2 * (k / 2) || k == 2 * (k / 2) + 1;
      }
    }
  }

  function HexTable(m: map<Text, Bytes>): DiskTable {
    Entries(map k | k in m :: CanonicalJson.BareHex(m[k]))
  }

  function UnhexTable(t: DiskTable): Option<map<Text, Bytes>> {
    if t.NotAnObject? || exists k :: k in t.entries && Unhex(t.entries[k]).None? then None
    else Some(map k | k in t.entries :: Unhex(t.entries[k]).value)
  }

  function EventToDisk(e: Event): EventOnDisk {
    EventOnDisk(e.id, e.split, e.content,
                Some(EmbeddingsOnDisk(e.embeddings.modelId, e.embeddings.revision, e.embeddings.layout,
                                      CanonicalJson.BareHex(e.embeddings.query), HexTable(e.embeddings.perTruth),
                                        HexTable(e.embeddings.perNegative))))
  }

  function EventFromDisk(e: EventOnDisk): Outcome<Event> {
    if e.embeddings.None? then Err(MalformedRecord(e.id))
    else
      var disk := e.embeddings.value;
      var query, perTruth, perNegative := Unhex(disk.query), UnhexTable(disk.perTruth), UnhexTable(disk.perNegative);
      if query.None? || perTruth.None? || perNegative.None? then Err(MalformedRecord(e.id))
      else Ok(Event(e.id, e.split, e.content,
                    Embeddings(disk.modelId, disk.revision, disk.layout, query.value, perTruth.value,
                               perNegative.value)))
  }

  function RecordsToDisk(records: seq<Event>): seq<EventOnDisk> {
    if records == [] then [] else [EventToDisk(records[0])] + RecordsToDisk(records[1..])
  }

  /** The first malformed record's error. */
  function RecordsFromDisk(records: seq<EventOnDisk>): Outcome<seq<Event>> {
    if records == [] then Ok([])
    else
      var first := EventFromDisk(records[0]);
      if first.Err? then Err(first.error)
      else
        var rest := RecordsFromDisk(records[1..]);
        if rest.Err? then rest else Ok([first.value] + rest.value)
  }

  function WithRecords<A, B>(d: Delta<A>, records: seq<B>): Delta<B> {
    Delta(d.schemaVersion, d.previousRoot, d.nextRoot, d.addedIds, records, d.removedIds, d.provenance, d.biEncoder,
          d.epoch, d.corpusEpoch, d.generatedAt, d.signature, d.signerKeyId)
  }

  function SerializeDelta(d: Delta<Event>): Delta<EventOnDisk> {
    WithRecords(d, RecordsToDisk(d.addedRecords))
  }

  function ParseDelta(raw: Delta<EventOnDisk>): Outcome<Delta<Event>> {
    var records := RecordsFromDisk(raw.addedRecords);
    if records.Err? then Err(records.error) else Ok(WithRecords(raw, records.value))
  }

  lemma TableRoundTrip(m: map<Text, Bytes>)
    ensures UnhexTable(HexTable(m)) == Some(m)
  {
    forall k | k in m
      ensures Unhex(CanonicalJson.BareHex(m[k])) == Some(m[k])
    {
      UnhexOfHex(m[k]);
    }
    assert UnhexTable(HexTable(m)).value == m;
  }

  lemma EventRoundTrip(e: Event)
    ensures EventFromDisk(EventToDisk(e)) == Ok(e)
  {
    UnhexOfHex(e.embeddings.query);
    TableRoundTrip(e.embeddings.perTruth);
    TableRoundTrip(e.embeddings.perNegative);
  }

  lemma {:induction false} RecordsRoundTrip(records: seq<Event>)
    ensures RecordsFromDisk(RecordsToDisk(records)) == Ok(records)
  {
    if records != [] {
      EventRoundTrip(records[0]);
      RecordsRoundTrip(records[1..]);
      assert RecordsToDisk(records)[1..] == RecordsToDisk(records[1..]);
      assert records == [records[0]] + records[1..];
    }
  }

  /** What is read back from disk is the delta that was written. */
  lemma DiskRoundTrip(d: Delta<Event>)
    ensures ParseDelta(SerializeDelta(d)) == Ok(d)
  {
    RecordsRoundTrip(d.addedRecords);
  }

  // ── what is read from disk ───────────────────────────────────────────────────

  /** Bytes and their hex, digit by digit; an 0x in front does not count. */
  ghost predicate Spells(hex: Text, bytes: Bytes) {
    var clean := Clean(hex);
    && IsHex(clean) && |clean| == 2 * |bytes|
    && forall i :: 0 <= i < |bytes| ==> bytes[i] == 16 * HexValue(clean[2 * i]) + HexValue(clean[2 * i + 1])
  }

  ghost predicate TableSpells(t: DiskTable, m: map<Text, Bytes>) {
    t.Entries? && m.Keys == t.entries.Keys && forall k :: k in m ==> Spells(t.entries[k], m[k])
  }

  /** A record of the file and the record it is read as. */
  ghost predicate ReadsAs(raw: EventOnDisk, e: Event) {
    && raw.id == e.id && raw.split == e.split && raw.content == e.content && raw.embeddings.Some?
    && var disk := raw.embeddings.value;
       && disk.modelId == e.embeddings.modelId && disk.revision == e.embeddings.revision
       && disk.layout == e.embeddings.layout && Spells(disk.query, e.embeddings.query)
       && TableSpells(disk.perTruth, e.embeddings.perTruth) && TableSpells(disk.perNegative, e.embeddings.perNegative)
  }

  lemma TableSpelled(t: DiskTable)
    requires UnhexTable(t).Some?
    ensures TableSpells(t, UnhexTable(t).value)
  {
    var m := UnhexTable(t).value;
    assert m.Keys == t.entries.Keys;
    forall k | k in m
      ensures Spells(t.entries[k], m[k])
    {
      assert Unhex(t.entries[k]).Some?;
    }
  }

  lemma RecordReads(raw: EventOnDisk)
    ensures EventFromDisk(raw).Ok? ==> ReadsAs(raw, EventFromDisk(raw).value)
    ensures EventFromDisk(raw).Err? ==> EventFromDisk(raw).error == MalformedRecord(raw.id)
  {
    if EventFromDisk(raw).Ok? {
      TableSpelled(raw.embeddings.value.perTruth);
      TableSpelled(raw.embeddings.value.perNegative);
    }
  }

  /** A record is malformed exactly if its embeddings are missing, a table is not an object, or some hex is not
      pairs of hex digits. */
  ghost predicate Malformed(raw: EventOnDisk) {
    || raw.embeddings.None?
    || var disk := raw.embeddings.value;
       || !IsHex(Clean(disk.query)) || disk.perTruth.NotAnObject? || disk.perNegative.NotAnObject?
       || (exists k :: k in disk.perTruth.entries && !IsHex(Clean(disk.perTruth.entries[k])))
       || (exists k :: k in disk.perNegative.entries && !IsHex(Clean(disk.perNegative.entries[k])))
  }

  lemma MalformedIff(raw: EventOnDisk)
    ensures EventFromDisk(raw).Err? <==> Malformed(raw)
  {
  }

  lemma {:induction false} RecordsRead(raw: seq<EventOnDisk>)
    ensures RecordsFromDisk(raw).Ok? <==> forall i :: 0 <= i < |raw| ==> !Malformed(raw[i])
    ensures RecordsFromDisk(raw).Ok? ==>
              var records := RecordsFromDisk(raw).value;
              |records| == |raw| && forall i :: 0 <= i < |raw| ==> ReadsAs(raw[i], records[i])
    ensures RecordsFromDisk(raw).Err? ==>
              exists i :: 0 <= i < |raw| && Malformed(raw[i])
                && RecordsFromDisk(raw).error == MalformedRecord(raw[i].id)
  {
    if raw != [] {
      RecordReads(raw[0]);
      MalformedIff(raw[0]);
      RecordsRead(raw[1..]);
      assert forall i :: 0 < i < |raw| ==> raw[i] == raw[1..][i - 1];
    }
  }

  /** A file is read exactly if none of its records is malformed, record by record and byte by byte; every other
      field is taken as it stands. */
  lemma FileReads(raw: Delta<EventOnDisk>)
    ensures ParseDelta(raw).Ok? <==> forall i :: 0 <= i < |raw.addedRecords| ==> !Malformed(raw.addedRecords[i])
    ensures ParseDelta(raw).Ok? ==>
              var d := ParseDelta(raw).value;
              && |d.addedRecords| == |raw.addedRecords|
              && (forall i :: 0 <= i < |raw.addedRecords| ==> ReadsAs(raw.addedRecords[i], d.addedRecords[i]))
              && d.schemaVersion == raw.schemaVersion && d.previousRoot == raw.previousRoot
                && d.nextRoot == raw.nextRoot
              && d.addedIds == raw.addedIds && d.removedIds == raw.removedIds && d.provenance == raw.provenance
              && d.biEncoder == raw.biEncoder && d.epoch == raw.epoch && d.corpusEpoch == raw.corpusEpoch
              && d.generatedAt == raw.generatedAt && d.signature == raw.signature && d.signerKeyId == raw.signerKeyId
  {
    RecordsRead(raw.addedRecords);
  }
}
