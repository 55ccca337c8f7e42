/** Authorised lexical and vector search, fused by reciprocal rank. */
module RankFusion {
  import opened Common
  import opened Sorting
  import opened Chunker

  datatype RetrievalResult = RetrievalResult(chunk: Chunk, score: real, degraded: bool)

  // ---------------------------------------------------------------------
  // Lexical search
  // ---------------------------------------------------------------------

  predicate MoreRelevant(relevance: Chunk -> nat, a: Chunk, b: Chunk) {
    relevance(a) >= relevance(b)
  }

  function InSources(chunks: seq<Chunk>, allowlist: set<string>): seq<Chunk> {
    if chunks == [] then []
    else
      var earlier, last := InSources(chunks[..|chunks| - 1], allowlist), chunks[|chunks| - 1];
      if last.sourceRef in allowlist then earlier + [last] else earlier
  }

  /** The candidates of the allowed sources, most relevant first; ties keep the index's order. */
  function LexicalSearch(candidates: seq<Chunk>, allowlist: set<string>, relevance: Chunk -> nat): seq<Chunk> {
    Sorted(InSources(candidates, allowlist), (a, b) => MoreRelevant(relevance, a, b))
  }

  // ---------------------------------------------------------------------
  // Fusion
  // ---------------------------------------------------------------------

  function Reciprocal(k: nat, rank: nat): real
    requires rank >= 1
  {
    1.0 / ((k + rank) as real)
  }

  /** The sum of 1 / (k + rank) over the places where an id stands in a list. */
  function Score(list: seq<Chunk>, k: nat, id: string): real {
    if list == [] then 0.0
    else
      var earlier := Score(list[..|list| - 1], k, id);
      if list[|list| - 1].chunkId == id then earlier + Reciprocal(k, |list|) else earlier
  }

  /** The ids of a list in order of first appearance: a dict's keys. */
  function DistinctIds(list: seq<Chunk>): seq<string> {
    if list == [] then []
    else
      var earlier, id := DistinctIds(list[..|list| - 1]), list[|list| - 1].chunkId;
      if id in earlier then earlier else earlier + [id]
  }

  /** The chunk an id stands for: its last occurrence wins. */
  function ChunkMap(list: seq<Chunk>): map<string, Chunk> {
    if list == [] then map[]
    else ChunkMap(list[..|list| - 1])[list[|list| - 1].chunkId := list[|list| - 1]]
  }

  function FusedScore(lexical: seq<Chunk>, vector: seq<Chunk>, k: nat, id: string): real {
    Score(lexical, k, id) + Score(vector, k, id)
  }

  predicate RankLe(score: string -> real, a: string, b: string) {
    score(a) > score(b) || (score(a) == score(b) && StringLe(a, b))
  }

  function FusedIds(lexical: seq<Chunk>, vector: seq<Chunk>, k: nat): seq<string> {
    var score := id => FusedScore(lexical, vector, k, id);
    Sorted(DistinctIds(lexical + vector), (a, b) => RankLe(score, a, b))
  }

  function Ranked(ids: seq<string>, chunks: map<string, Chunk>, score: string -> real): seq<(Chunk, real)> {
    if ids == [] then []
    else
      var earlier, id := Ranked(ids[..|ids| - 1], chunks, score), ids[|ids| - 1];
      if id in chunks then earlier + [(chunks[id], score(id))] else earlier
  }

  function Fused(lexical: seq<Chunk>, vector: seq<Chunk>, k: nat): seq<(Chunk, real)> {
    Ranked(FusedIds(lexical, vector, k), ChunkMap(lexical + vector), id => FusedScore(lexical, vector, k, id))
  }

  /** What the vector side did: no embedding to search with, a search that raised, or its results. */
  datatype VectorSide = Unavailable | Failed | Returned(chunks: seq<Chunk>)

  datatype Settings = Settings(lexicalSources: set<string>, sources: set<string>, rrfK: nat, topK: nat)
  {
    function LexicalAllowlist(allowlist: set<string>): set<string> {
      if allowlist != {} then allowlist else lexicalSources
    }

    function VectorAllowlist(allowlist: set<string>): set<string> {
      if allowlist != {} then allowlist else sources
    }

    function VectorResults(side: VectorSide, allowlist: set<string>): seq<Chunk> {
      if side.Returned? then InSources(side.chunks, VectorAllowlist(allowlist)) else []
    }

    function Results(candidates: seq<Chunk>, relevance: Chunk -> nat, side: VectorSide, allowlist: set<string>)
      : seq<RetrievalResult>
    {
      var lexical := LexicalSearch(candidates, LexicalAllowlist(allowlist), relevance);
      var fused := Fused(lexical, VectorResults(side, allowlist), rrfK);
      Marked(if topK <= |fused| then fused[..topK] else fused, !side.Returned?)
    }
  }

  function Marked(fused: seq<(Chunk, real)>, degraded: bool): seq<RetrievalResult> {
    seq(|fused|, i requires 0 <= i < |fused| => RetrievalResult(fused[i].0, fused[i].1, degraded))
  }

  class HybridRetriever {
    const settings: Settings

    constructor (settings: Settings)
      requires settings.rrfK >= 1 && settings.topK >= 1
      ensures this.settings == settings
    {
      this.settings := settings;
    }

    method Search(candidates: seq<Chunk>, relevance: Chunk -> nat, side: VectorSide, allowlist: set<string>)
      returns (results: seq<RetrievalResult>)
      ensures results == settings.Results(candidates, relevance, side, allowlist)
    {
      hide LexicalSearch, Fused, InSources;
      var lexical := LexicalSearch(candidates, settings.LexicalAllowlist(allowlist), relevance);
      var vector: seq<Chunk> := [];
      var degraded := side.Unavailable?;
      match side {
        case Unavailable =>
        case Failed => degraded := true;
        case Returned(chunks) => vector := InSources(chunks, settings.VectorAllowlist(allowlist));
      }
      var fused := Fuse(lexical, vector, settings.rrfK);
      var top := if settings.topK <= |fused| then fused[..settings.topK] else fused;
      results := [];
      for i := 0 to |top|
        invariant results == Marked(top[..i], degraded)
      {
        results := results + [RetrievalResult(top[i].0, top[i].1, degraded)];
      }
      assert top[..|top|] == top;
    }

    /** Both loops add to the scores under way and overwrite the chunk. */
    static method Fuse(lexical: seq<Chunk>, vector: seq<Chunk>, k: nat) returns (fused: seq<(Chunk, real)>)
      ensures fused == Fused(lexical, vector, k)
    {
      hide FusedTo;
      var order: seq<string> := [];
      var scores: map<string, real> := map[];
      var chunks: map<string, Chunk> := map[];
      FuseStarts(k);
      for i := 0 to |lexical|
        invariant FusedTo(lexical[..i], [], k, order, scores, chunks)
      {
        var chunk := lexical[i];
        ghost var earlier := scores;
        LexicalTurn(lexical[..i], k, order, scores, chunks, chunk);
        assert lexical[..i + 1] == lexical[..i] + [chunk];
        if chunk.chunkId !in scores {
          order, scores := order + [chunk.chunkId], scores[chunk.chunkId := 0.0];
        }
        scores := scores[chunk.chunkId := scores[chunk.chunkId] + Reciprocal(k, i + 1)];
        assert scores == earlier[chunk.chunkId := ScoreOf(earlier, chunk.chunkId) + Reciprocal(k, i + 1)];
        chunks := chunks[chunk.chunkId := chunk];
      }
      assert lexical[..|lexical|] == lexical;
      for i := 0 to |vector|
        invariant FusedTo(lexical, vector[..i], k, order, scores, chunks)
      {
        var chunk := vector[i];
        ghost var earlier := scores;
        VectorTurn(lexical, vector[..i], k, order, scores, chunks, chunk);
        assert vector[..i + 1] == vector[..i] + [chunk];
        if chunk.chunkId !in scores {
          order, scores := order + [chunk.chunkId], scores[chunk.chunkId := 0.0];
        }
        scores := scores[chunk.chunkId := scores[chunk.chunkId] + Reciprocal(k, i + 1)];
        assert scores == earlier[chunk.chunkId := ScoreOf(earlier, chunk.chunkId) + Reciprocal(k, i + 1)];
        chunks := chunks[chunk.chunkId := chunk];
      }
      assert vector[..|vector|] == vector;
      FuseEnds(lexical, vector, k, order, scores, chunks);
      var score := id => ScoreOf(scores, id);
      var ids := Sorted(order, (a, b) => RankLe(score, a, b));
      fused := Ranked(ids, chunks, score);
    }
  }

  // ---------------------------------------------------------------------
  // The two loops
  // ---------------------------------------------------------------------

  /** A score dict read with its default. */
  function ScoreOf(scores: map<string, real>, id: string): real {
    if id in scores then scores[id] else 0.0
  }

  ghost predicate SameKeys(scores: map<string, real>, order: seq<string>) {
    forall id :: id in scores <==> id in order
  }

  ghost predicate ScoresAre(scores: map<string, real>, lexical: seq<Chunk>, vector: seq<Chunk>, k: nat) {
    forall id :: ScoreOf(scores, id) == FusedScore(lexical, vector, k, id)
  }

  /** The dicts after the two prefixes. */
  ghost predicate FusedTo(lexical: seq<Chunk>, vector: seq<Chunk>, k: nat,
                          order: seq<string>, scores: map<string, real>, chunks: map<string, Chunk>)
  {
    && order == DistinctIds(lexical + vector) && chunks == ChunkMap(lexical + vector)
    && SameKeys(scores, order) && ScoresAre(scores, lexical, vector, k)
  }

  /** One list has grown by one chunk, which gains what its rank is worth. */
  ghost predicate Grown(before: (seq<Chunk>, seq<Chunk>), after: (seq<Chunk>, seq<Chunk>), k: nat,
                        chunk: Chunk, gain: real)
  {
    || (after == (before.0 + [chunk], before.1) && gain == Reciprocal(k, |before.0| + 1))
    || (after == (before.0, before.1 + [chunk]) && gain == Reciprocal(k, |before.1| + 1))
  }

  lemma FusedMore(before: (seq<Chunk>, seq<Chunk>), after: (seq<Chunk>, seq<Chunk>), k: nat,
                  chunk: Chunk, gain: real, id: string)
    requires Grown(before, after, k, chunk, gain)
    ensures FusedScore(after.0, after.1, k, id) ==
            if id == chunk.chunkId then FusedScore(before.0, before.1, k, id) + gain else FusedScore(before.0, before.1, k, id)
  {
    hide DistinctIds, ChunkMap, Reciprocal, Score;
    OneMore(before.0, k, chunk, id);
    OneMore(before.1, k, chunk, id);
  }

  lemma ScoresNext(scores: map<string, real>, before: (seq<Chunk>, seq<Chunk>), after: (seq<Chunk>, seq<Chunk>),
                   k: nat, chunk: Chunk, gain: real)
    requires ScoresAre(scores, before.0, before.1, k) && Grown(before, after, k, chunk, gain)
    ensures ScoresAre(scores[chunk.chunkId := ScoreOf(scores, chunk.chunkId) + gain], after.0, after.1, k)
  {
    hide FusedScore, Grown;
    var next := scores[chunk.chunkId := ScoreOf(scores, chunk.chunkId) + gain];
    forall id ensures ScoreOf(next, id) == FusedScore(after.0, after.1, k, id) {
      assert ScoreOf(scores, id) == FusedScore(before.0, before.1, k, id);
      FusedMore(before, after, k, chunk, gain, id);
    }
  }

  lemma KeysNext(order: seq<string>, scores: map<string, real>, id: string, score: real)
    requires SameKeys(scores, order)
    ensures SameKeys(scores[id := score], if id in scores then order else order + [id])
    ensures id in scores <==> id in order
  {
  }

  lemma FuseStarts(k: nat)
    ensures FusedTo([], [], k, [], map[], map[])
  {
    var none: seq<Chunk> := [];
    assert none + none == none;
  }

  lemma {:induction false} DistinctIdsExactly(list: seq<Chunk>, id: string)
    ensures id in DistinctIds(list) <==> exists i | 0 <= i < |list| :: list[i].chunkId == id
  {
    if list != [] {
      var init := list[..|list| - 1];
      DistinctIdsExactly(init, id);
      if i :| 0 <= i < |list| && list[i].chunkId == id {
        assert i == |init| || init[i].chunkId == id;
      }
      if i :| 0 <= i < |init| && init[i].chunkId == id {
        assert list[i].chunkId == id;
      }
    }
  }

  lemma OneMore(list: seq<Chunk>, k: nat, chunk: Chunk, id: string)
    ensures DistinctIds(list + [chunk]) ==
            if chunk.chunkId in DistinctIds(list) then DistinctIds(list) else DistinctIds(list) + [chunk.chunkId]
    ensures ChunkMap(list + [chunk]) == ChunkMap(list)[chunk.chunkId := chunk]
    ensures Score(list + [chunk], k, id) ==
            if chunk.chunkId == id then Score(list, k, id) + Reciprocal(k, |list| + 1) else Score(list, k, id)
  {
    assert (list + [chunk])[..|list|] == list;
  }

  /** One more chunk in the list under way. */
  lemma LexicalTurn(lexical: seq<Chunk>, k: nat, order: seq<string>, scores: map<string, real>, chunks: map<string, Chunk>,
                    chunk: Chunk)
    requires FusedTo(lexical, [], k, order, scores, chunks)
    ensures var id := chunk.chunkId;
            FusedTo(lexical + [chunk], [], k, if id in scores then order else order + [id],
                    scores[id := ScoreOf(scores, id) + Reciprocal(k, |lexical| + 1)],
                    chunks[id := chunk])
  {
    assert lexical + [] == lexical && lexical + [chunk] + [] == lexical + [chunk];
    hide Score, DistinctIds, ChunkMap, Reciprocal, ScoreOf, SameKeys, ScoresAre;
    var gain := Reciprocal(k, |lexical| + 1);
    OneMore(lexical, k, chunk, "");
    KeysNext(order, scores, chunk.chunkId, ScoreOf(scores, chunk.chunkId) + gain);
    ScoresNext(scores, (lexical, []), (lexical + [chunk], []), k, chunk, gain);
  }

  lemma VectorTurn(lexical: seq<Chunk>, vector: seq<Chunk>, k: nat, order: seq<string>, scores: map<string, real>,
                   chunks: map<string, Chunk>, chunk: Chunk)
    requires FusedTo(lexical, vector, k, order, scores, chunks)
    ensures var id := chunk.chunkId;
            FusedTo(lexical, vector + [chunk], k, if id in scores then order else order + [id],
                    scores[id := ScoreOf(scores, id) + Reciprocal(k, |vector| + 1)],
                    chunks[id := chunk])
  {
    assert lexical + (vector + [chunk]) == lexical + vector + [chunk];
    hide Score, DistinctIds, ChunkMap, Reciprocal, ScoreOf, SameKeys, ScoresAre;
    var gain := Reciprocal(k, |vector| + 1);
    OneMore(lexical + vector, k, chunk, "");
    KeysNext(order, scores, chunk.chunkId, ScoreOf(scores, chunk.chunkId) + gain);
    ScoresNext(scores, (lexical, vector), (lexical, vector + [chunk]), k, chunk, gain);
  }

  lemma FuseEnds(lexical: seq<Chunk>, vector: seq<Chunk>, k: nat, order: seq<string>, scores: map<string, real>,
                 chunks: map<string, Chunk>)
    requires FusedTo(lexical, vector, k, order, scores, chunks)
    ensures var score := id => ScoreOf(scores, id);
            Ranked(Sorted(order, (a, b) => RankLe(score, a, b)), chunks, score) == Fused(lexical, vector, k)
  {
    var score := id => ScoreOf(scores, id);
    var fusedScore := id => FusedScore(lexical, vector, k, id);
    hide FusedScore, ChunkMap, DistinctIds, StringLe, Sorted, Ranked;
    SortedSame(order, (a, b) => RankLe(score, a, b), (a, b) => RankLe(fusedScore, a, b));
    RankedSame(Sorted(order, (a, b) => RankLe(score, a, b)), chunks, score, fusedScore);
  }

  lemma {:induction false} InsertSame<T>(x: T, sorted: seq<T>, f: (T, T) -> bool, g: (T, T) -> bool)
    requires forall a, b | a in [x] + sorted && b in [x] + sorted :: f(a, b) == g(a, b)
    ensures Insert(x, sorted, f) == Insert(x, sorted, g)
  {
    if sorted != [] && !f(x, sorted[0]) {
      InsertSame(x, sorted[1..], f, g);
    }
  }

  lemma {:induction false} SortedSame<T(!new)>(items: seq<T>, f: (T, T) -> bool, g: (T, T) -> bool)
    requires forall a, b :: f(a, b) == g(a, b)
    ensures Sorted(items, f) == Sorted(items, g)
  {
    if items != [] {
      SortedSame(items[1..], f, g);
      InsertSame(items[0], Sorted(items[1..], f), f, g);
    }
  }

  lemma {:induction false} RankedSame(ids: seq<string>, chunks: map<string, Chunk>, f: string -> real, g: string -> real)
    requires forall id :: f(id) == g(id)
    ensures Ranked(ids, chunks, f) == Ranked(ids, chunks, g)
  {
    if ids != [] {
      RankedSame(ids[..|ids| - 1], chunks, f, g);
    }
  }
}
