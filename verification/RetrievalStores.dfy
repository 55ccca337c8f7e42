/** The lexical index, the vector backend and the pipeline that writes both. */
module RetrievalStores {
  import opened Common
  import opened Chunker

  /** A chunk map with the sources that have been deleted for good. */
  datatype Store = Store(chunks: map<string, Chunk>, deleted: set<string>)

  function Added(store: Store, chunk: Chunk): Store {
    if chunk.sourceRef in store.deleted then store else store.(chunks := store.chunks[chunk.chunkId := chunk])
  }

  function AddedAll(store: Store, chunks: seq<Chunk>): Store {
    if chunks == [] then store else Added(AddedAll(store, chunks[..|chunks| - 1]), chunks[|chunks| - 1])
  }

  function Accepted(store: Store, chunks: seq<Chunk>): seq<Chunk> {
    if chunks == [] then []
    else
      var earlier, last := Accepted(store, chunks[..|chunks| - 1]), chunks[|chunks| - 1];
      if last.sourceRef in store.deleted then earlier else earlier + [last]
  }

  function SourceDeleted(store: Store, sourceRef: string): Store {
    Store(map id <- store.chunks | store.chunks[id].sourceRef != sourceRef :: store.chunks[id],
          store.deleted + {sourceRef})
  }

  function OfSource(chunks: map<string, Chunk>, sourceRef: string): set<string> {
    set id <- chunks | chunks[id].sourceRef == sourceRef
  }

  lemma AddedAllNext(store: Store, chunks: seq<Chunk>, c: nat)
    requires c < |chunks|
    ensures AddedAll(store, chunks[..c + 1]) == Added(AddedAll(store, chunks[..c]), chunks[c])
    ensures Accepted(store, chunks[..c + 1]) ==
            if chunks[c].sourceRef in store.deleted then Accepted(store, chunks[..c])
            else Accepted(store, chunks[..c]) + [chunks[c]]
  {
    assert chunks[..c + 1][..c] == chunks[..c];
  }

  // ---------------------------------------------------------------------
  // The two stores
  // ---------------------------------------------------------------------

  class RetrievalIndex {
    var chunks: map<string, Chunk>
    var deletedSources: set<string>

    constructor ()
      ensures View() == Store(map[], {})
    {
      chunks, deletedSources := map[], {};
    }

    function View(): Store
      reads this
    {
      Store(chunks, deletedSources)
    }

    method Add(chunk: Chunk)
      modifies this
      ensures View() == Added(old(View()), chunk)
    {
      if chunk.sourceRef in deletedSources {
        return;
      }
      chunks := chunks[chunk.chunkId := chunk];
    }

    method DeleteSource(sourceRef: string)
      modifies this
      ensures View() == SourceDeleted(old(View()), sourceRef)
    {
      deletedSources := deletedSources + {sourceRef};
      var removed := OfSource(chunks, sourceRef);
      while removed != {}
        invariant removed <= OfSource(old(chunks), sourceRef)
        invariant chunks == map id <- old(chunks) | id in removed || old(chunks)[id].sourceRef != sourceRef :: old(chunks)[id]
        invariant deletedSources == old(deletedSources) + {sourceRef}
        decreases |removed|
      {
        var id :| id in removed;
        chunks := chunks - {id};
        removed := removed - {id};
      }
    }
  }

  type Vector = seq<real>

  datatype Point = Point(chunk: Chunk, vector: Vector)

  datatype UpsertError = LengthMismatch

  function ChunksOf(points: map<string, Point>): map<string, Chunk> {
    map id <- points :: points[id].chunk
  }

  class InMemoryVectorBackend {
    var points: map<string, Point>
    var deletedSources: set<string>

    constructor ()
      ensures View() == Store(map[], {})
    {
      points, deletedSources := map[], {};
    }

    /** The backend without its vectors. */
    function View(): Store
      reads this
    {
      Store(ChunksOf(points), deletedSources)
    }

    method Upsert(chunks: seq<Chunk>, vectors: seq<Vector>) returns (result: Result<seq<Chunk>, UpsertError>)
      modifies this
      ensures |chunks| != |vectors| ==> result == Err(LengthMismatch) && View() == old(View())
      ensures |chunks| == |vectors| ==>
                result == Ok(Accepted(old(View()), chunks)) && View() == AddedAll(old(View()), chunks)
    {
      hide AddedAll, Accepted;
      if |chunks| != |vectors| {
        return Err(LengthMismatch);
      }
      var accepted: seq<Chunk> := [];
      NothingAdded(View());
      for c := 0 to |chunks|
        invariant deletedSources == old(deletedSources)
        invariant View() == AddedAll(old(View()), chunks[..c]) && accepted == Accepted(old(View()), chunks[..c])
      {
        AddedAllNext(old(View()), chunks, c);
        var chunk := chunks[c];
        if chunk.sourceRef in deletedSources {
          continue;
        }
        points := points[chunk.chunkId := Point(chunk, vectors[c])];
        accepted := accepted + [chunk];
      }
      assert chunks[..|chunks|] == chunks;
      return Ok(accepted);
    }

    method Delete(sourceRef: string) returns (count: nat)
      modifies this
      ensures View() == SourceDeleted(old(View()), sourceRef)
      ensures count == |OfSource(old(View()).chunks, sourceRef)|
    {
      hide ChunksOf, OfSource, SourceDeleted;
      deletedSources := deletedSources + {sourceRef};
      var removed := set id <- points | points[id].chunk.sourceRef == sourceRef;
      ghost var all := removed;
      count := |removed|;
      while removed != {}
        invariant removed <= all && deletedSources == old(deletedSources) + {sourceRef}
        invariant points == old(points) - (all - removed)
        decreases |removed|
      {
        var id :| id in removed;
        assert points - {id} == old(points) - (all - (removed - {id}));
        points := points - {id};
        removed := removed - {id};
      }
      assert all - {} == all;
      PointsDeleted(old(points), old(deletedSources), sourceRef, all);
    }
  }

  lemma PointsDeleted(points: map<string, Point>, deleted: set<string>, sourceRef: string, removed: set<string>)
    requires removed == set id <- points | points[id].chunk.sourceRef == sourceRef
    ensures removed == OfSource(ChunksOf(points), sourceRef)
    ensures Store(ChunksOf(points - removed), deleted + {sourceRef}) ==
            SourceDeleted(Store(ChunksOf(points), deleted), sourceRef)
  {
  }

  lemma NothingAdded(store: Store)
    ensures AddedAll(store, []) == store && Accepted(store, []) == []
  {
  }

  // ---------------------------------------------------------------------
  // The pipeline
  // ---------------------------------------------------------------------

  datatype SourceDocument = SourceDocument(sourceRef: string, sourceVersion: string, lines: seq<string>, locator: string)

  function Materialized(document: SourceDocument, index: nat, raw: Chunk): Chunk {
    Chunk(document.sourceRef + "@" + document.sourceVersion + ":" + Decimal(index),
          document.sourceRef, document.sourceVersion, raw.text, raw.locator)
  }

  function DocumentChunks(document: SourceDocument, space: char -> bool): seq<Chunk> {
    var raw := Emitted(Groups(document.lines, space), document.locator, space);
    seq(|raw|, i requires 0 <= i < |raw| => Materialized(document, i, raw[i]))
  }

  /** The policy versions that shape an index; the embedder that was used is recorded with them. */
  datatype IndexPolicy = IndexPolicy(
    parserVersion: string, chunkVersion: string, embeddingVersion: Option<string>, indexVersion: string)

  datatype IndexProjection = IndexProjection(
    sourceRef: string, sourceVersion: string, policy: IndexPolicy, chunkRefs: seq<string>)

  datatype Embedder = Embedder(name: string, embed: seq<Chunk> -> seq<Vector>)

  function Projected(document: SourceDocument, chunks: seq<Chunk>, policy: IndexPolicy, embedder: Embedder)
    : IndexProjection
  {
    IndexProjection(document.sourceRef, document.sourceVersion,
                    policy.(embeddingVersion := Some(embedder.name)), ChunkIds(chunks))
  }

  /** An embedder should return one vector a text, but nothing forces it to. The lexical mirror is optional. */
  class IndexingPipeline {
    const backend: InMemoryVectorBackend
    const lexicalIndex: RetrievalIndex?
    const policy: IndexPolicy
    const space: char -> bool

    constructor (policy: IndexPolicy, mirrored: bool, space: char -> bool)
      ensures this.policy == policy && this.space == space
      ensures fresh(backend) && backend.View() == Store(map[], {})
      ensures mirrored <==> lexicalIndex != null
      ensures lexicalIndex != null ==> fresh(lexicalIndex) && lexicalIndex.View() == Store(map[], {})
    {
      this.policy, this.space := policy, space;
      backend := new InMemoryVectorBackend();
      if mirrored {
        lexicalIndex := new RetrievalIndex();
      } else {
        lexicalIndex := null;
      }
    }

    /** What the mirror holds, if there is one. */
    function Mirrored(): Option<Store>
      reads lexicalIndex
    {
      if lexicalIndex == null then None else Some(lexicalIndex.View())
    }

    method Ingest(document: SourceDocument, embedder: Embedder) returns (result: Result<IndexProjection, UpsertError>)
      modifies backend, lexicalIndex
      ensures var chunks := DocumentChunks(document, space);
              if |embedder.embed(chunks)| != |chunks|
              then result == Err(LengthMismatch)
                   && backend.View() == old(backend.View()) && Mirrored() == old(Mirrored())
              else && result == Ok(Projected(document, chunks, policy, embedder))
                   && backend.View() == AddedAll(old(backend.View()), chunks)
                   && (lexicalIndex != null ==> lexicalIndex.View() == AddedAll(old(lexicalIndex.View()), chunks))
    {
      hide AddedAll, Added, Emitted, Groups;
      var raw := SplitSemanticChunks(document.lines, document.locator, space);
      var chunks := seq(|raw|, i requires 0 <= i < |raw| => Materialized(document, i, raw[i]));
      assert chunks == DocumentChunks(document, space);
      var vectors := embedder.embed(chunks);
      var accepted := backend.Upsert(chunks, vectors);
      if accepted.Err? {
        return Err(accepted.error);
      }
      if lexicalIndex != null {
        NothingAdded(lexicalIndex.View());
        for c := 0 to |chunks|
          invariant backend.View() == AddedAll(old(backend.View()), chunks)
          invariant lexicalIndex.View() == AddedAll(old(lexicalIndex.View()), chunks[..c])
        {
          AddedAllNext(old(lexicalIndex.View()), chunks, c);
          lexicalIndex.Add(chunks[c]);
        }
        assert chunks[..|chunks|] == chunks;
      }
      return Ok(Projected(document, chunks, policy, embedder));
    }

    method Delete(sourceRef: string)
      modifies backend, lexicalIndex
      ensures backend.View() == SourceDeleted(old(backend.View()), sourceRef)
      ensures lexicalIndex != null ==> lexicalIndex.View() == SourceDeleted(old(lexicalIndex.View()), sourceRef)
    {
      var _ := backend.Delete(sourceRef);
      if lexicalIndex != null {
        lexicalIndex.DeleteSource(sourceRef);
      }
    }
  }

  function ChunkIds(chunks: seq<Chunk>): seq<string> {
    seq(|chunks|, i requires 0 <= i < |chunks| => chunks[i].chunkId)
  }

  // ---------------------------------------------------------------------
  // Every history of the pipeline
  // ---------------------------------------------------------------------

  /** A document with the number of vectors the embedder returned for it, or a deletion. */
  datatype Op = Ingest(document: SourceDocument, vectorCount: nat) | Delete(sourceRef: string)

  /** What each store holds. */
  datatype Mirror = Mirror(vector: Store, lexical: Store)

  function Apply(mirror: Mirror, op: Op, space: char -> bool): Mirror {
    match op
    case Ingest(document, vectorCount) =>
      var chunks := DocumentChunks(document, space);
      if vectorCount != |chunks| then mirror
      else Mirror(AddedAll(mirror.vector, chunks), AddedAll(mirror.lexical, chunks))
    case Delete(sourceRef) => Mirror(SourceDeleted(mirror.vector, sourceRef), SourceDeleted(mirror.lexical, sourceRef))
  }

  function Exec(ops: seq<Op>, space: char -> bool): Mirror {
    if ops == [] then Mirror(Store(map[], {}), Store(map[], {}))
    else Apply(Exec(ops[..|ops| - 1], space), ops[|ops| - 1], space)
  }

  /** Chunks sit under their own id, and none belongs to a deleted source. */
  ghost predicate StoreOk(store: Store) {
    forall id <- store.chunks :: store.chunks[id].chunkId == id && store.chunks[id].sourceRef !in store.deleted
  }

  lemma {:induction false} AddedAllOk(store: Store, chunks: seq<Chunk>)
    requires StoreOk(store)
    ensures StoreOk(AddedAll(store, chunks)) && AddedAll(store, chunks).deleted == store.deleted
  {
    if chunks != [] {
      AddedAllOk(store, chunks[..|chunks| - 1]);
    }
  }

  /** The two stores hold the same chunks in every history. */
  lemma {:induction false} StoresMirrorEachOther(ops: seq<Op>, space: char -> bool)
    ensures Exec(ops, space).vector == Exec(ops, space).lexical && StoreOk(Exec(ops, space).vector)
  {
    hide AddedAll, DocumentChunks;
    if ops != [] {
      var before, op := Exec(ops[..|ops| - 1], space), ops[|ops| - 1];
      StoresMirrorEachOther(ops[..|ops| - 1], space);
      if op.Ingest? {
        AddedAllOk(before.vector, DocumentChunks(op.document, space));
      }
    }
  }

  lemma {:induction false} DeletionsStay(ops: seq<Op>, more: seq<Op>, space: char -> bool)
    ensures Exec(ops, space).vector.deleted <= Exec(ops + more, space).vector.deleted
  {
    hide AddedAll, DocumentChunks;
    if more == [] {
      assert ops + more == ops;
    } else {
      var init, op := more[..|more| - 1], more[|more| - 1];
      assert (ops + more)[..|ops + more| - 1] == ops + init;
      DeletionsStay(ops, init, space);
      StoresMirrorEachOther(ops + init, space);
      if op.Ingest? {
        AddedAllOk(Exec(ops + init, space).vector, DocumentChunks(op.document, space));
      }
    }
  }

  /** After a source is deleted neither store ever holds one of its chunks again. */
  lemma DeletedSourceNeverReturns(ops: seq<Op>, sourceRef: string, more: seq<Op>, space: char -> bool)
    ensures var mirror := Exec(ops + [Delete(sourceRef)] + more, space);
            && OfSource(mirror.vector.chunks, sourceRef) == {}
            && OfSource(mirror.lexical.chunks, sourceRef) == {}
  {
    var deleted := ops + [Delete(sourceRef)];
    assert deleted[..|deleted| - 1] == ops;
    assert sourceRef in Exec(deleted, space).vector.deleted;
    DeletionsStay(deleted, more, space);
    StoresMirrorEachOther(deleted + more, space);
  }

  lemma {:induction false} DecimalIsInjective(m: nat, n: nat)
    requires Decimal(m) == Decimal(n)
    ensures m == n
  {
    DecimalNotEmpty(m / 10);
    DecimalNotEmpty(n / 10);
    if m >= 10 && n >= 10 {
      assert Decimal(m)[..|Decimal(m)| - 1] == Decimal(m / 10);
      assert Decimal(n)[..|Decimal(n)| - 1] == Decimal(n / 10);
      assert Decimal(m)[|Decimal(m)| - 1] == Decimal(n)[|Decimal(n)| - 1];
      DecimalIsInjective(m / 10, n / 10);
    }
  }

  lemma DecimalNotEmpty(n: nat)
    ensures |Decimal(n)| >= 1
  {
  }

  /** The chunks of a document have different ids. */
  lemma DocumentIdsDiffer(document: SourceDocument, space: char -> bool, i: nat, j: nat)
    requires i < j < |DocumentChunks(document, space)|
    ensures DocumentChunks(document, space)[i].chunkId != DocumentChunks(document, space)[j].chunkId
  {
    var prefix := document.sourceRef + "@" + document.sourceVersion + ":";
    var a, b := prefix + Decimal(i), prefix + Decimal(j);
    if a == b {
      assert Decimal(i) == a[|prefix|..] == b[|prefix|..] == Decimal(j);
      DecimalIsInjective(i, j);
    }
  }

  /** A document of a source that was not deleted is held whole, by both stores, right after its ingestion. */
  lemma IngestedIsHeld(ops: seq<Op>, document: SourceDocument, space: char -> bool, i: nat)
    requires i < |DocumentChunks(document, space)| && document.sourceRef !in Exec(ops, space).vector.deleted
    ensures var chunks := DocumentChunks(document, space);
            var mirror := Exec(ops + [Ingest(document, |chunks|)], space);
            && chunks[i].chunkId in mirror.vector.chunks && mirror.vector.chunks[chunks[i].chunkId] == chunks[i]
            && chunks[i].chunkId in mirror.lexical.chunks && mirror.lexical.chunks[chunks[i].chunkId] == chunks[i]
  {
    var chunks := DocumentChunks(document, space);
    var longer := ops + [Ingest(document, |chunks|)];
    assert longer[..|longer| - 1] == ops;
    StoresMirrorEachOther(ops, space);
    forall j, k | 0 <= j < k < |chunks| ensures chunks[j].chunkId != chunks[k].chunkId {
      DocumentIdsDiffer(document, space, j, k);
    }
    assert forall c <- chunks :: c.sourceRef == document.sourceRef;
    hide DocumentChunks, AddedAll;
    AddedAllHolds(Exec(ops, space).vector, chunks, i);
  }

  lemma {:induction false} AddedAllHolds(store: Store, chunks: seq<Chunk>, i: nat)
    requires i < |chunks| && StoreOk(store) && forall c <- chunks :: c.sourceRef !in store.deleted
    requires forall j, k | 0 <= j < k < |chunks| :: chunks[j].chunkId != chunks[k].chunkId
    ensures chunks[i].chunkId in AddedAll(store, chunks).chunks
    ensures AddedAll(store, chunks).chunks[chunks[i].chunkId] == chunks[i]
  {
    AddedAllOk(store, chunks[..|chunks| - 1]);
    if i < |chunks| - 1 {
      AddedAllHolds(store, chunks[..|chunks| - 1], i);
    }
  }

  // ---------------------------------------------------------------------
  // What the stores hold in the long run
  // ---------------------------------------------------------------------

  /** The chunk of a document under an id. */
  ghost predicate Writes(document: SourceDocument, space: char -> bool, id: string, chunk: Chunk) {
    chunk in DocumentChunks(document, space) && chunk.chunkId == id
  }

  lemma {:induction false} AddedAllKeeps(store: Store, chunks: seq<Chunk>, id: string)
    requires forall c <- chunks :: c.chunkId != id
    ensures id in AddedAll(store, chunks).chunks <==> id in store.chunks
    ensures id in store.chunks ==> AddedAll(store, chunks).chunks[id] == store.chunks[id]
  {
    if chunks != [] {
      AddedAllKeeps(store, chunks[..|chunks| - 1], id);
    }
  }

  lemma {:induction false} AddedAllClosed(store: Store, chunks: seq<Chunk>)
    requires forall c <- chunks :: c.sourceRef in store.deleted
    ensures AddedAll(store, chunks) == store
  {
    if chunks != [] {
      AddedAllClosed(store, chunks[..|chunks| - 1]);
    }
  }

  /** An operation that takes a held chunk away: its source is deleted, or its id is written with something else. */
  ghost predicate Displaces(store: Store, op: Op, space: char -> bool, chunk: Chunk) {
    match op
    case Delete(sourceRef) => sourceRef == chunk.sourceRef
    case Ingest(document, vectorCount) =>
      && vectorCount == |DocumentChunks(document, space)| && document.sourceRef !in store.deleted
      && exists other :: Writes(document, space, chunk.chunkId, other) && other != chunk
  }

  ghost predicate Holds(store: Store, chunk: Chunk) {
    chunk.chunkId in store.chunks && store.chunks[chunk.chunkId] == chunk
  }

  /** An ingestion that goes through writes exactly the document's chunks over what was there. */
  lemma IngestWrites(store: Store, document: SourceDocument, space: char -> bool, id: string)
    requires StoreOk(store)
    ensures var chunks := DocumentChunks(document, space);
            var after := AddedAll(store, chunks);
            && (document.sourceRef in store.deleted ==> after == store)
            && (document.sourceRef !in store.deleted ==>
                  && (forall chunk :: Writes(document, space, id, chunk) ==> Holds(after, chunk))
                  && ((forall chunk :: !Writes(document, space, id, chunk)) ==>
                        && (id in after.chunks <==> id in store.chunks)
                        && (id in store.chunks ==> after.chunks[id] == store.chunks[id])))
  {
    var chunks := DocumentChunks(document, space);
    assert forall c <- chunks :: c.sourceRef == document.sourceRef;
    forall j, k | 0 <= j < k < |chunks| ensures chunks[j].chunkId != chunks[k].chunkId {
      DocumentIdsDiffer(document, space, j, k);
    }
    hide DocumentChunks, AddedAll, StoreOk;
    if document.sourceRef in store.deleted {
      AddedAllClosed(store, chunks);
    } else if chunk :| Writes(document, space, id, chunk) {
      forall other | Writes(document, space, id, other) ensures Holds(AddedAll(store, chunks), other) {
        var i :| 0 <= i < |chunks| && chunks[i] == other;
        AddedAllHolds(store, chunks, i);
      }
    } else {
      forall c <- chunks ensures c.chunkId != id {
        assert !Writes(document, space, id, c);
      }
      AddedAllKeeps(store, chunks, id);
    }
  }

  /** A held chunk survives an operation exactly when the operation does not displace it. */
  lemma HeldSurvivesExactly(ops: seq<Op>, op: Op, space: char -> bool, chunk: Chunk)
    requires Holds(Exec(ops, space).vector, chunk)
    ensures Holds(Exec(ops + [op], space).vector, chunk) <==> !Displaces(Exec(ops, space).vector, op, space, chunk)
  {
    assert (ops + [op])[..|ops|] == ops;
    var store := Exec(ops, space).vector;
    if op.Ingest? {
      StoresMirrorEachOther(ops, space);
      hide AddedAll, DocumentChunks, Writes;
      IngestWrites(store, op.document, space, chunk.chunkId);
      if other :| Writes(op.document, space, chunk.chunkId, other) && other != chunk {
        WritesItsId(op.document, space, chunk.chunkId, other);
      }
    }
  }

  lemma WritesItsId(document: SourceDocument, space: char -> bool, id: string, chunk: Chunk)
    requires Writes(document, space, id, chunk)
    ensures chunk.chunkId == id
  {
  }

  /** Through any further history that never displaces it, a held chunk stays in both stores. */
  lemma {:induction false} HeldUntilDisplaced(ops: seq<Op>, more: seq<Op>, space: char -> bool, chunk: Chunk)
    requires Holds(Exec(ops, space).vector, chunk)
    requires forall k | 0 <= k < |more| :: !Displaces(Exec(ops + more[..k], space).vector, more[k], space, chunk)
    ensures Holds(Exec(ops + more, space).vector, chunk) && Holds(Exec(ops + more, space).lexical, chunk)
  {
    StoresMirrorEachOther(ops + more, space);
    hide Exec, Displaces;
    if more == [] {
      assert ops + more == ops;
    } else {
      var init, last := more[..|more| - 1], more[|more| - 1];
      forall k | 0 <= k < |init| ensures !Displaces(Exec(ops + init[..k], space).vector, init[k], space, chunk) {
        assert init[..k] == more[..k];
      }
      HeldUntilDisplaced(ops, init, space, chunk);
      assert ops + init + [last] == ops + more;
      HeldSurvivesExactly(ops + init, last, space, chunk);
    }
  }

  /** Ids of different sources can coincide: version "b@c" of source "a" writes over version "c" of source "a@b". */
  lemma IdsCollideAcrossSources(a: string, b: string, c: string, lines: seq<string>, more: seq<string>, locator: string,
                                index: nat, raw: Chunk, other: Chunk)
    ensures var left := Materialized(SourceDocument(a, b + "@" + c, lines, locator), index, raw);
            var right := Materialized(SourceDocument(a + "@" + b, c, more, locator), index, other);
            left.chunkId == right.chunkId && left.sourceRef != right.sourceRef
  {
    assert a + "@" + (b + "@" + c) == (a + "@" + b) + "@" + c;
    assert |a + "@" + b| > |a|;
  }

  /**
   * So two documents of different sources push each other out: right after the first is ingested its
   * chunk is held, and after the second both stores hold the second's chunk in its place.
   */
  lemma CollidingIngestsDisplace(ops: seq<Op>, a: string, b: string, c: string, lines: seq<string>,
                                 more: seq<string>, locator: string, space: char -> bool, i: nat)
    requires var left, right := SourceDocument(a, b + "@" + c, lines, locator), SourceDocument(a + "@" + b, c, more, locator);
             && i < |DocumentChunks(left, space)| && i < |DocumentChunks(right, space)|
             && a !in Exec(ops, space).vector.deleted && a + "@" + b !in Exec(ops, space).vector.deleted
    ensures var left, right := SourceDocument(a, b + "@" + c, lines, locator), SourceDocument(a + "@" + b, c, more, locator);
            var lost, kept := DocumentChunks(left, space)[i], DocumentChunks(right, space)[i];
            var first := ops + [Ingest(left, |DocumentChunks(left, space)|)];
            var both := first + [Ingest(right, |DocumentChunks(right, space)|)];
            && Holds(Exec(first, space).vector, lost) && Holds(Exec(first, space).lexical, lost)
            && Holds(Exec(both, space).vector, kept) && Holds(Exec(both, space).lexical, kept)
            && !Holds(Exec(both, space).vector, lost) && !Holds(Exec(both, space).lexical, lost)
  {
    var left, right := SourceDocument(a, b + "@" + c, lines, locator), SourceDocument(a + "@" + b, c, more, locator);
    var first := ops + [Ingest(left, |DocumentChunks(left, space)|)];
    IngestKeepsDeleted(ops, left, space);
    IngestedIsHeld(ops, left, space, i);
    IngestedIsHeld(first, right, space, i);
    var lost, kept := DocumentChunks(left, space)[i], DocumentChunks(right, space)[i];
    IdsCollideAcrossSources(a, b, c, lines, more, locator, i, lost, kept);
    assert kept.sourceRef == a + "@" + b && lost.sourceRef == a && |a + "@" + b| > |a|;
    assert kept.chunkId == lost.chunkId;
    hide Exec, DocumentChunks;
  }

  lemma IngestKeepsDeleted(ops: seq<Op>, document: SourceDocument, space: char -> bool)
    ensures var chunks := DocumentChunks(document, space);
            Exec(ops + [Ingest(document, |chunks|)], space).vector.deleted == Exec(ops, space).vector.deleted
  {
    var chunks := DocumentChunks(document, space);
    assert (ops + [Ingest(document, |chunks|)])[..|ops|] == ops;
    StoresMirrorEachOther(ops, space);
    hide DocumentChunks, AddedAll;
    AddedAllOk(Exec(ops, space).vector, chunks);
  }

  /** The projection names the document, its chunks by number, and the embedder that was used. */
  lemma ProjectionExactly(document: SourceDocument, policy: IndexPolicy, embedder: Embedder, space: char -> bool, i: nat)
    requires i < |DocumentChunks(document, space)|
    ensures var projection := Projected(document, DocumentChunks(document, space), policy, embedder);
            && projection.sourceRef == document.sourceRef && projection.sourceVersion == document.sourceVersion
            && projection.policy == IndexPolicy(policy.parserVersion, policy.chunkVersion, Some(embedder.name), policy.indexVersion)
            && |projection.chunkRefs| == |DocumentChunks(document, space)|
            && projection.chunkRefs[i] == document.sourceRef + "@" + document.sourceVersion + ":" + Decimal(i)
            && DocumentChunks(document, space)[i].chunkId == projection.chunkRefs[i]
            && DocumentChunks(document, space)[i].sourceRef == document.sourceRef
            && DocumentChunks(document, space)[i].sourceVersion == document.sourceVersion
            && DocumentChunks(document, space)[i].locator == document.locator
            && DocumentChunks(document, space)[i].text ==
               Emitted(Groups(document.lines, space), document.locator, space)[i].text
  {
    NoBufferIsDropped(document.lines, document.locator, space);
    hide Groups, Emitted, Strip, Joined, Decimal;
  }
}
