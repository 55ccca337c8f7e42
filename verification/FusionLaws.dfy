/** What rank fusion guarantees about the order and the origin of its results. */
module FusionLaws {
  import opened Common
  import opened Sorting
  import opened Chunker
  import opened RankFusion

  predicate OtherChunk(a: Chunk, b: Chunk) {
    a.chunkId != b.chunkId
  }

  ghost predicate DistinctChunks(list: seq<Chunk>) {
    IsSorted(list, OtherChunk)
  }

  predicate OtherId(a: string, b: string) {
    a != b
  }

  ghost predicate Unrepeated(ids: seq<string>) {
    IsSorted(ids, OtherId)
  }

  ghost predicate Contains(list: seq<Chunk>, id: string) {
    exists i | 0 <= i < |list| :: list[i].chunkId == id
  }

  /** Wherever a list holds `b`, it holds `a` further up. */
  ghost predicate AheadIn(list: seq<Chunk>, a: string, b: string) {
    forall j | 0 <= j < |list| && list[j].chunkId == b :: Contains(list[..j], a)
  }

  // ---------------------------------------------------------------------
  // Scores
  // ---------------------------------------------------------------------

  lemma Scaled(x: real, p: real, q: real)
    requires x > 0.0 && p <= q
    ensures x * p <= x * q
  {
  }

  lemma ReciprocalFalls(k: nat, i: nat, j: nat)
    requires 1 <= i < j
    ensures Reciprocal(k, i) > Reciprocal(k, j) > 0.0
  {
    var x, y := (k + i) as real, (k + j) as real;
    var p, q := 1.0 / x, 1.0 / y;
    assert 0.0 < x < y && q > 0.0;
    assert x * p == 1.0 && y * q == 1.0;
    assert (y - x) * q > 0.0;
    if p <= q {
      Scaled(x, p, q);
    }
  }

  lemma ReciprocalPositive(k: nat, i: nat)
    requires 1 <= i
    ensures Reciprocal(k, i) > 0.0
  {
    ReciprocalFalls(k, i, i + 1);
  }

  lemma {:induction false} ScoreNonNegative(list: seq<Chunk>, k: nat, id: string)
    ensures Score(list, k, id) >= 0.0
  {
    if list != [] {
      ScoreNonNegative(list[..|list| - 1], k, id);
      ReciprocalPositive(k, |list|);
    }
  }

  lemma {:induction false} ScoreAbsent(list: seq<Chunk>, k: nat, id: string)
    requires forall i | 0 <= i < |list| :: list[i].chunkId != id
    ensures Score(list, k, id) == 0.0
  {
    if list != [] {
      ScoreAbsent(list[..|list| - 1], k, id);
    }
  }

  /** In a list without duplicates the score of an id is what its rank is worth. */
  lemma {:induction false} ScoreAt(list: seq<Chunk>, k: nat, i: nat)
    requires DistinctChunks(list) && i < |list|
    ensures Score(list, k, list[i].chunkId) == Reciprocal(k, i + 1)
  {
    var init := list[..|list| - 1];
    if i == |init| {
      ScoreAbsent(init, k, list[i].chunkId);
    } else {
      ScoreAt(init, k, i);
    }
  }

  /** A list in which `a` is ahead of `b` never gives `b` more, and gives it less if it holds it. */
  lemma AheadScoresMore(list: seq<Chunk>, k: nat, a: string, b: string)
    requires DistinctChunks(list) && AheadIn(list, a, b)
    ensures Score(list, k, a) >= Score(list, k, b)
    ensures Contains(list, b) ==> Score(list, k, a) > Score(list, k, b)
  {
    hide Reciprocal, Score;
    if Contains(list, b) {
      var j :| 0 <= j < |list| && list[j].chunkId == b;
      assert Contains(list[..j], a);
      var i :| 0 <= i < j && list[..j][i].chunkId == a;
      ScoreAt(list, k, i);
      ScoreAt(list, k, j);
      ReciprocalFalls(k, i + 1, j + 1);
    } else {
      ScoreAbsent(list, k, b);
      ScoreNonNegative(list, k, a);
    }
  }

  // ---------------------------------------------------------------------
  // The fused order
  // ---------------------------------------------------------------------

  lemma RankOrder(score: string -> real)
    ensures KeyOrder((a, b) => RankLe(score, a, b))
  {
    var le := (a, b) => RankLe(score, a, b);
    forall a, b ensures le(a, b) || le(b, a) {
      StringLeTotal(a, b);
    }
    forall a, b, c | le(a, b) && le(b, c) ensures le(a, c) {
      if score(a) == score(b) == score(c) {
        StringLeTransitive(a, b, c);
      }
    }
  }

  lemma {:induction false} DistinctIdsUnrepeated(list: seq<Chunk>)
    ensures Unrepeated(DistinctIds(list))
  {
    if list != [] {
      DistinctIdsUnrepeated(list[..|list| - 1]);
    }
  }

  lemma {:induction false} ChunkMapExactly(list: seq<Chunk>, id: string)
    ensures id in ChunkMap(list) <==> id in DistinctIds(list)
    ensures id in ChunkMap(list) ==> ChunkMap(list)[id] in list && ChunkMap(list)[id].chunkId == id
  {
    if list != [] {
      ChunkMapExactly(list[..|list| - 1], id);
    }
  }

  /** The fused ids are the ids of both lists, each once, by falling score. */
  lemma FusedIdsShape(lexical: seq<Chunk>, vector: seq<Chunk>, k: nat)
    ensures var ids := FusedIds(lexical, vector, k);
            && Unrepeated(ids)
            && (forall id :: id in ids <==> id in DistinctIds(lexical + vector))
            && (forall i, j | 0 <= i < j < |ids| ::
                  FusedScore(lexical, vector, k, ids[i]) >= FusedScore(lexical, vector, k, ids[j]))
  {
    var score := id => FusedScore(lexical, vector, k, id);
    var le := (a, b) => RankLe(score, a, b);
    var keys, ids := DistinctIds(lexical + vector), FusedIds(lexical, vector, k);
    RankOrder(score);
    SortedSorts(keys, le);
    DistinctIdsUnrepeated(lexical + vector);
    hide Sorted, DistinctIds, FusedScore, StringLe, KeyOrder;
    PairwisePermuted(keys, ids, OtherId);
    forall id ensures id in ids <==> id in keys {
      assert id in ids <==> id in multiset(ids);
    }
    forall i, j | 0 <= i < j < |ids| ensures score(ids[i]) >= score(ids[j]) {
      assert le(ids[i], ids[j]);
    }
  }

  lemma {:induction false} RankedShape(ids: seq<string>, chunks: map<string, Chunk>, score: string -> real)
    requires forall id <- ids :: id in chunks
    ensures |Ranked(ids, chunks, score)| == |ids|
    ensures forall i | 0 <= i < |ids| :: Ranked(ids, chunks, score)[i] == (chunks[ids[i]], score(ids[i]))
  {
    if ids != [] {
      RankedShape(ids[..|ids| - 1], chunks, score);
    }
  }

  /** The fused list pairs each fused id with its chunk and its score. */
  lemma FusedShape(lexical: seq<Chunk>, vector: seq<Chunk>, k: nat)
    ensures var ids, fused := FusedIds(lexical, vector, k), Fused(lexical, vector, k);
            && |fused| == |ids|
            && forall i | 0 <= i < |ids| ::
                 && fused[i].0.chunkId == ids[i] && fused[i].0 in lexical + vector
                 && fused[i].1 == FusedScore(lexical, vector, k, ids[i])
  {
    var ids, chunks := FusedIds(lexical, vector, k), ChunkMap(lexical + vector);
    FusedIdsShape(lexical, vector, k);
    hide FusedIds, DistinctIds, ChunkMap, FusedScore, Unrepeated;
    forall id <- ids ensures id in chunks && chunks[id] in lexical + vector && chunks[id].chunkId == id {
      ChunkMapExactly(lexical + vector, id);
    }
    RankedShape(ids, chunks, id => FusedScore(lexical, vector, k, id));
  }

  /** `a` stands before `b` in the fused order when it is ahead of it in every list that holds `b`. */
  lemma FusionKeepsOrder(lexical: seq<Chunk>, vector: seq<Chunk>, k: nat, a: string, b: string)
    requires DistinctChunks(lexical) && DistinctChunks(vector)
    requires AheadIn(lexical, a, b) && AheadIn(vector, a, b) && (Contains(lexical, b) || Contains(vector, b))
    ensures var ids := FusedIds(lexical, vector, k);
            exists i, j :: 0 <= i < j < |ids| && ids[i] == a && ids[j] == b
  {
    var ids := FusedIds(lexical, vector, k);
    AheadScoresMore(lexical, k, a, b);
    AheadScoresMore(vector, k, a, b);
    FusedIdsShape(lexical, vector, k);
    BothListed(lexical, vector, a, b);
    hide FusedIds, Score, DistinctIds, DistinctChunks;
    var i :| 0 <= i < |ids| && ids[i] == a;
    var j :| 0 <= j < |ids| && ids[j] == b;
    assert i < j;
  }

  lemma BothListed(lexical: seq<Chunk>, vector: seq<Chunk>, a: string, b: string)
    requires AheadIn(lexical, a, b) && AheadIn(vector, a, b) && (Contains(lexical, b) || Contains(vector, b))
    ensures a in DistinctIds(lexical + vector) && b in DistinctIds(lexical + vector)
  {
    var both := lexical + vector;
    DistinctIdsExactly(both, a);
    DistinctIdsExactly(both, b);
    if Contains(lexical, b) {
      var j :| 0 <= j < |lexical| && lexical[j].chunkId == b;
      assert Contains(lexical[..j], a);
      var i :| 0 <= i < j && lexical[..j][i].chunkId == a;
      assert both[i].chunkId == a && both[j].chunkId == b;
    } else {
      var j :| 0 <= j < |vector| && vector[j].chunkId == b;
      assert Contains(vector[..j], a);
      var i :| 0 <= i < j && vector[..j][i].chunkId == a;
      assert both[|lexical| + i].chunkId == a && both[|lexical| + j].chunkId == b;
    }
  }

  // ---------------------------------------------------------------------
  // Search results
  // ---------------------------------------------------------------------

  lemma {:induction false} InSourcesShape(chunks: seq<Chunk>, allowlist: set<string>)
    requires DistinctChunks(chunks)
    ensures DistinctChunks(InSources(chunks, allowlist))
    ensures forall chunk <- InSources(chunks, allowlist) :: chunk in chunks && chunk.sourceRef in allowlist
  {
    if chunks != [] {
      var init, last := chunks[..|chunks| - 1], chunks[|chunks| - 1];
      InSourcesShape(init, allowlist);
      forall chunk <- InSources(init, allowlist) ensures chunk.chunkId != last.chunkId {
        var i :| 0 <= i < |init| && init[i] == chunk;
        assert chunks[i].chunkId != chunks[|init|].chunkId;
      }
    }
  }

  /** The results: no id twice, at most `topK`, and nothing from outside the authorised sources. */
  lemma ResultsAreAuthorised(settings: Settings, candidates: seq<Chunk>, relevance: Chunk -> nat, side: VectorSide,
                             allowlist: set<string>)
    requires DistinctChunks(candidates) && (side.Returned? ==> DistinctChunks(side.chunks))
    ensures var results := settings.Results(candidates, relevance, side, allowlist);
            && |results| <= settings.topK
            && (forall i, j | 0 <= i < j < |results| :: results[i].chunk.chunkId != results[j].chunk.chunkId)
            && (forall i | 0 <= i < |results| ::
                  results[i].chunk.sourceRef in settings.LexicalAllowlist(allowlist) + settings.VectorAllowlist(allowlist))
            && (settings.sources == settings.lexicalSources ==>
                  forall i | 0 <= i < |results| :: results[i].chunk.sourceRef in settings.LexicalAllowlist(allowlist))
  {
    hide Fused, FusedIds, LexicalSearch, FusedScore, InSources;
    var lexical := LexicalSearch(candidates, settings.LexicalAllowlist(allowlist), relevance);
    var vector := settings.VectorResults(side, allowlist);
    LexicalSources(candidates, settings.LexicalAllowlist(allowlist), relevance);
    if side.Returned? {
      InSourcesShape(side.chunks, settings.VectorAllowlist(allowlist));
    }
    FusedShape(lexical, vector, settings.rrfK);
    FusedIdsShape(lexical, vector, settings.rrfK);
    hide DistinctIds;
    var fused := Fused(lexical, vector, settings.rrfK);
    forall i | 0 <= i < |fused|
      ensures fused[i].0.sourceRef in settings.LexicalAllowlist(allowlist) + settings.VectorAllowlist(allowlist)
    {
      assert fused[i].0 in lexical || fused[i].0 in vector;
    }
  }

  lemma LexicalSources(candidates: seq<Chunk>, allowlist: set<string>, relevance: Chunk -> nat)
    requires DistinctChunks(candidates)
    ensures var lexical := LexicalSearch(candidates, allowlist, relevance);
            && (forall chunk <- lexical :: chunk.sourceRef in allowlist)
            && DistinctChunks(lexical)
  {
    var le := (a, b) => MoreRelevant(relevance, a, b);
    var kept := InSources(candidates, allowlist);
    InSourcesShape(candidates, allowlist);
    assert KeyOrder(le);
    SortedSorts(kept, le);
    hide Sorted, KeyOrder;
    PairwisePermuted(kept, LexicalSearch(candidates, allowlist, relevance), OtherChunk);
    forall chunk <- LexicalSearch(candidates, allowlist, relevance) ensures chunk in kept {
      assert chunk in multiset(kept);
    }
  }

  /** If `b` is returned, so is every `a` that both channels put ahead of it, and it is returned earlier. */
  lemma ResultsKeepOrder(settings: Settings, candidates: seq<Chunk>, relevance: Chunk -> nat, side: VectorSide,
                         allowlist: set<string>, a: string, j: nat)
    requires var lexical := LexicalSearch(candidates, settings.LexicalAllowlist(allowlist), relevance);
             var vector := settings.VectorResults(side, allowlist);
             var results := settings.Results(candidates, relevance, side, allowlist);
             && DistinctChunks(lexical) && DistinctChunks(vector) && j < |results|
             && AheadIn(lexical, a, results[j].chunk.chunkId) && AheadIn(vector, a, results[j].chunk.chunkId)
    ensures exists i | 0 <= i < j :: settings.Results(candidates, relevance, side, allowlist)[i].chunk.chunkId == a
  {
    hide Fused, FusedIds, LexicalSearch, FusedScore, InSources, AheadIn, DistinctChunks;
    var lexical := LexicalSearch(candidates, settings.LexicalAllowlist(allowlist), relevance);
    var vector, k := settings.VectorResults(side, allowlist), settings.rrfK;
    var results, ids := settings.Results(candidates, relevance, side, allowlist), FusedIds(lexical, vector, k);
    var b := results[j].chunk.chunkId;
    FusedShape(lexical, vector, k);
    FusedIdsShape(lexical, vector, k);
    hide DistinctIds;
    assert ids[j] == b && Fused(lexical, vector, k)[j].0 in lexical + vector;
    InOneList(lexical, vector, Fused(lexical, vector, k)[j].0);
    FusionKeepsOrder(lexical, vector, k, a, b);
    var x, y :| 0 <= x < y < |ids| && ids[x] == a && ids[y] == b;
    assert y == j;
    assert results[x].chunk.chunkId == a;
  }

  lemma InOneList(lexical: seq<Chunk>, vector: seq<Chunk>, chunk: Chunk)
    requires chunk in lexical + vector
    ensures Contains(lexical, chunk.chunkId) || Contains(vector, chunk.chunkId)
  {
    var i :| 0 <= i < |lexical + vector| && (lexical + vector)[i] == chunk;
    if i < |lexical| {
      assert lexical[i].chunkId == chunk.chunkId;
    } else {
      assert vector[i - |lexical|].chunkId == chunk.chunkId;
    }
  }

  lemma {:induction false} DistinctIdsOf(list: seq<Chunk>)
    requires DistinctChunks(list)
    ensures |DistinctIds(list)| == |list|
    ensures forall i | 0 <= i < |list| :: DistinctIds(list)[i] == list[i].chunkId
  {
    if list != [] {
      DistinctIdsOf(list[..|list| - 1]);
    }
  }

  /** The ids of a single list are already in score order. */
  lemma IdsAloneKeepOrder(lexical: seq<Chunk>, k: nat)
    requires DistinctChunks(lexical)
    ensures FusedIds(lexical, [], k) == DistinctIds(lexical)
  {
    assert lexical + [] == lexical;
    var score := id => FusedScore(lexical, [], k, id);
    var le := (a, b) => RankLe(score, a, b);
    var keys := DistinctIds(lexical);
    DistinctIdsOf(lexical);
    hide DistinctIds, StringLe, KeyOrder, Sorted, DistinctChunks, FusedScore;
    forall i, j | 0 <= i < j < |keys| ensures le(keys[i], keys[j]) {
      EarlierScoresMore(lexical, k, i, j);
    }
    RankOrder(score);
    SortedFixpoint(keys, le);
  }

  lemma ScoreAlone(lexical: seq<Chunk>, k: nat, i: nat)
    requires DistinctChunks(lexical) && i < |lexical|
    ensures FusedScore(lexical, [], k, lexical[i].chunkId) == Reciprocal(k, i + 1)
  {
    ScoreAt(lexical, k, i);
  }

  lemma EarlierScoresMore(lexical: seq<Chunk>, k: nat, i: nat, j: nat)
    requires DistinctChunks(lexical) && i < j < |lexical|
    ensures FusedScore(lexical, [], k, lexical[i].chunkId) > FusedScore(lexical, [], k, lexical[j].chunkId)
  {
    hide DistinctChunks, FusedScore, Reciprocal;
    ScoreAlone(lexical, k, i);
    ScoreAlone(lexical, k, j);
    ReciprocalFalls(k, i + 1, j + 1);
  }

  lemma OneChunkPerId(list: seq<Chunk>, chunk: Chunk, i: nat)
    requires DistinctChunks(list) && i < |list| && chunk in list && chunk.chunkId == list[i].chunkId
    ensures chunk == list[i]
  {
    var j :| 0 <= j < |list| && list[j] == chunk;
    assert i == j;
  }

  /** A single list is fused into itself. */
  lemma LexicalAloneKeepsOrder(lexical: seq<Chunk>, k: nat)
    requires DistinctChunks(lexical)
    ensures var fused := Fused(lexical, [], k);
            && |fused| == |lexical|
            && forall i | 0 <= i < |lexical| :: fused[i] == (lexical[i], Reciprocal(k, i + 1))
  {
    hide DistinctIds, FusedScore, Reciprocal, FusedIds, Fused, DistinctChunks;
    assert lexical + [] == lexical;
    DistinctIdsOf(lexical);
    IdsAloneKeepOrder(lexical, k);
    FusedShape(lexical, [], k);
    forall i | 0 <= i < |lexical| ensures Fused(lexical, [], k)[i] == (lexical[i], Reciprocal(k, i + 1)) {
      OneChunkPerId(lexical, Fused(lexical, [], k)[i].0, i);
      ScoreAlone(lexical, k, i);
    }
  }

  /** Without vector results the answer is the first `topK` lexical results, in order. */
  lemma FallbackIsLexical(settings: Settings, candidates: seq<Chunk>, relevance: Chunk -> nat, side: VectorSide,
                          allowlist: set<string>)
    requires DistinctChunks(candidates) && !side.Returned?
    ensures var lexical := LexicalSearch(candidates, settings.LexicalAllowlist(allowlist), relevance);
            var results := settings.Results(candidates, relevance, side, allowlist);
            && |results| == (if settings.topK <= |lexical| then settings.topK else |lexical|)
            && forall i | 0 <= i < |results| ::
                 results[i] == RetrievalResult(lexical[i], Reciprocal(settings.rrfK, i + 1), true)
  {
    hide Fused, LexicalSearch, Reciprocal, DistinctChunks;
    LexicalSources(candidates, settings.LexicalAllowlist(allowlist), relevance);
    var lexical := LexicalSearch(candidates, settings.LexicalAllowlist(allowlist), relevance);
    LexicalAloneKeepsOrder(lexical, settings.rrfK);
  }

  // ---------------------------------------------------------------------
  // In terms of candidates, relevance and ranks alone
  // ---------------------------------------------------------------------

  function FromSources(sources: set<string>): Chunk -> bool {
    (chunk: Chunk) => chunk.sourceRef in sources
  }

  function AtLevel(relevance: Chunk -> nat, n: nat): Chunk -> bool {
    (chunk: Chunk) => relevance(chunk) == n
  }

  lemma {:induction false} InSourcesOnly(chunks: seq<Chunk>, allowlist: set<string>)
    ensures InSources(chunks, allowlist) == Only(chunks, FromSources(allowlist))
  {
    if chunks != [] {
      var init, last := chunks[..|chunks| - 1], chunks[|chunks| - 1];
      InSourcesOnly(init, allowlist);
      assert chunks == init + [last];
      OnlySnoc(init, last, FromSources(allowlist));
    }
  }

  lemma {:induction false} OnlySnoc<T>(items: seq<T>, last: T, keep: T -> bool)
    ensures Only(items + [last], keep) == if keep(last) then Only(items, keep) + [last] else Only(items, keep)
  {
    if items == [] {
      assert items + [last] == [last];
      assert Only([last], keep) == if keep(last) then [last] + Only([last][1..], keep) else Only([last][1..], keep);
    } else {
      assert (items + [last])[1..] == items[1..] + [last];
      OnlySnoc(items[1..], last, keep);
    }
  }

  lemma RelevanceOrder(relevance: Chunk -> nat)
    ensures KeyOrder((a, b) => MoreRelevant(relevance, a, b))
  {
  }

  /**
   * The lexical list rearranges the candidates of the allowed sources, most relevant first, and among
   * the equally relevant keeps the candidates' order.
   */
  lemma LexicalExactly(candidates: seq<Chunk>, allowlist: set<string>, relevance: Chunk -> nat, n: nat)
    ensures var list := LexicalSearch(candidates, allowlist, relevance);
            && (forall i, j | 0 <= i < j < |list| :: relevance(list[i]) >= relevance(list[j]))
            && (forall c :: multiset(list)[c] == if c.sourceRef in allowlist then multiset(candidates)[c] else 0)
            && Only(list, AtLevel(relevance, n)) == Only(Only(candidates, FromSources(allowlist)), AtLevel(relevance, n))
  {
    hide LexicalSearch, Only;
    LexicalFalls(candidates, allowlist, relevance);
    LexicalCounts(candidates, allowlist, relevance);
    LexicalKeepsOrder(candidates, allowlist, relevance, n);
  }

  lemma LexicalFalls(candidates: seq<Chunk>, allowlist: set<string>, relevance: Chunk -> nat)
    ensures var list := LexicalSearch(candidates, allowlist, relevance);
            forall i, j | 0 <= i < j < |list| :: relevance(list[i]) >= relevance(list[j])
  {
    var le, list := (a, b) => MoreRelevant(relevance, a, b), LexicalSearch(candidates, allowlist, relevance);
    RelevanceOrder(relevance);
    SortedSorts(InSources(candidates, allowlist), le);
    hide Sorted, KeyOrder, InSources;
    forall i, j | 0 <= i < j < |list| ensures relevance(list[i]) >= relevance(list[j]) {
      assert le(list[i], list[j]);
    }
  }

  lemma LexicalCounts(candidates: seq<Chunk>, allowlist: set<string>, relevance: Chunk -> nat)
    ensures var list := LexicalSearch(candidates, allowlist, relevance);
            forall c :: multiset(list)[c] == if c.sourceRef in allowlist then multiset(candidates)[c] else 0
  {
    RelevanceOrder(relevance);
    SortedSorts(InSources(candidates, allowlist), (a, b) => MoreRelevant(relevance, a, b));
    InSourcesOnly(candidates, allowlist);
    hide Sorted, KeyOrder, InSources, Only, IsSorted;
    forall c: Chunk
      ensures multiset(LexicalSearch(candidates, allowlist, relevance))[c] ==
              if c.sourceRef in allowlist then multiset(candidates)[c] else 0
    {
      OnlyMembers(candidates, FromSources(allowlist), c);
    }
  }

  lemma LexicalKeepsOrder(candidates: seq<Chunk>, allowlist: set<string>, relevance: Chunk -> nat, n: nat)
    ensures var list := LexicalSearch(candidates, allowlist, relevance);
            Only(list, AtLevel(relevance, n)) == Only(Only(candidates, FromSources(allowlist)), AtLevel(relevance, n))
  {
    hide Sorted, Only, InSources;
    InSourcesOnly(candidates, allowlist);
    LevelIsStable(InSources(candidates, allowlist), relevance, n);
  }

  lemma LevelIsStable(kept: seq<Chunk>, relevance: Chunk -> nat, n: nat)
    ensures var le := (a, b) => MoreRelevant(relevance, a, b);
            Only(Sorted(kept, le), AtLevel(relevance, n)) == Only(kept, AtLevel(relevance, n))
  {
    var le, atLevel := (a, b) => MoreRelevant(relevance, a, b), AtLevel(relevance, n);
    RelevanceOrder(relevance);
    hide KeyOrder;
    if key :| key in kept && relevance(key) == n {
      SortedIsStable(kept, le, key);
      hide Sorted, Only;
      OnlySame(kept, c => SameKeyAs(le, key, c), atLevel);
      OnlySame(Sorted(kept, le), c => SameKeyAs(le, key, c), atLevel);
    } else {
      SortedSorts(kept, le);
      NoneAtLevel(kept, atLevel);
      forall c <- Sorted(kept, le) ensures !atLevel(c) {
        assert c in multiset(kept);
      }
      NoneAtLevel(Sorted(kept, le), atLevel);
    }
  }

  lemma {:induction false} NoneAtLevel<T>(items: seq<T>, keep: T -> bool)
    requires forall x <- items :: !keep(x)
    ensures Only(items, keep) == []
  {
    if items != [] {
      NoneAtLevel(items[1..], keep);
    }
  }

  /**
   * Without vector results: the answer has as many allowed candidates as fit, most relevant first,
   * scored 1 / (k + rank), and no allowed candidate left out is more relevant than a returned one.
   */
  lemma FallbackByRelevance(settings: Settings, candidates: seq<Chunk>, relevance: Chunk -> nat, side: VectorSide,
                            allowlist: set<string>)
    requires DistinctChunks(candidates) && !side.Returned?
    ensures var sources := if allowlist == {} then settings.lexicalSources else allowlist;
            var results := settings.Results(candidates, relevance, side, allowlist);
            var allowed := Only(candidates, FromSources(sources));
            && |results| == (if settings.topK <= |allowed| then settings.topK else |allowed|)
            && (forall i | 0 <= i < |results| ::
                  && results[i].chunk in candidates && results[i].chunk.sourceRef in sources && results[i].degraded
                  && results[i].score == 1.0 / ((settings.rrfK + i + 1) as real))
            && (forall i, j | 0 <= i < j < |results| :: relevance(results[i].chunk) >= relevance(results[j].chunk))
            && (forall c <- candidates, i | c.sourceRef in sources && 0 <= i < |results| && Omitted(results, c) ::
                  relevance(results[i].chunk) >= relevance(c))
  {
    var sources := settings.LexicalAllowlist(allowlist);
    var list := LexicalSearch(candidates, sources, relevance);
    var results := settings.Results(candidates, relevance, side, allowlist);
    hide LexicalSearch, DistinctChunks, Only, Fused, InSources, Omitted;
    FallbackIsLexical(settings, candidates, relevance, side, allowlist);
    LexicalFalls(candidates, sources, relevance);
    LexicalLength(candidates, sources, relevance);
    forall i | 0 <= i < |results| ensures results[i].chunk in candidates && results[i].chunk.sourceRef in sources {
      LexicalMembers(candidates, sources, relevance, results[i].chunk);
    }
    forall c <- candidates, i | c.sourceRef in sources && 0 <= i < |results| && Omitted(results, c)
      ensures relevance(results[i].chunk) >= relevance(c)
    {
      LexicalMembers(candidates, sources, relevance, c);
      OmittedComesLater(list, results, c);
    }
  }

  lemma LexicalMembers(candidates: seq<Chunk>, allowlist: set<string>, relevance: Chunk -> nat, c: Chunk)
    ensures c in LexicalSearch(candidates, allowlist, relevance) <==> c in candidates && c.sourceRef in allowlist
  {
    hide LexicalSearch;
    LexicalCounts(candidates, allowlist, relevance);
    var list := LexicalSearch(candidates, allowlist, relevance);
    assert c in list <==> c in multiset(list);
    assert c in candidates <==> c in multiset(candidates);
  }

  /** A chunk of the list that is not among the first ones stands after all of them. */
  lemma OmittedComesLater(list: seq<Chunk>, results: seq<RetrievalResult>, c: Chunk)
    requires |results| <= |list| && forall i | 0 <= i < |results| :: results[i].chunk == list[i]
    requires c in list && Omitted(results, c)
    ensures exists j :: |results| <= j < |list| && list[j] == c
  {
    forall j | 0 <= j < |results| ensures list[j] != c {
      assert results[j].chunk == list[j];
    }
  }

  predicate Omitted(results: seq<RetrievalResult>, chunk: Chunk) {
    forall i | 0 <= i < |results| :: results[i].chunk != chunk
  }

  lemma LexicalLength(candidates: seq<Chunk>, allowlist: set<string>, relevance: Chunk -> nat)
    ensures |LexicalSearch(candidates, allowlist, relevance)| == |Only(candidates, FromSources(allowlist))|
  {
    InSourcesOnly(candidates, allowlist);
    RelevanceOrder(relevance);
    SortedSorts(InSources(candidates, allowlist), (a, b) => MoreRelevant(relevance, a, b));
  }

  /** The vector list keeps, in its own order, what the backend returned from the sources asked for. */
  lemma VectorExactly(settings: Settings, side: VectorSide, allowlist: set<string>)
    ensures settings.VectorResults(side, allowlist) ==
            if side.Returned? then Only(side.chunks, FromSources(if allowlist == {} then settings.sources else allowlist))
            else []
  {
    if side.Returned? {
      InSourcesOnly(side.chunks, settings.VectorAllowlist(allowlist));
    }
  }

  /** What a rank is worth; rank 0 stands for not being in the list. */
  function Worth(k: nat, rank: nat): real {
    if rank == 0 then 0.0 else 1.0 / ((k + rank) as real)
  }

  /** The rank of an id in a list. */
  ghost predicate StandsAt(list: seq<Chunk>, id: string, rank: nat) {
    if rank == 0 then !Contains(list, id) else rank <= |list| && list[rank - 1].chunkId == id
  }

  lemma ScoreByRank(list: seq<Chunk>, k: nat, id: string, rank: nat)
    requires DistinctChunks(list) && StandsAt(list, id, rank)
    ensures Score(list, k, id) == Worth(k, rank)
  {
    if rank == 0 {
      ScoreAbsent(list, k, id);
    } else {
      ScoreAt(list, k, rank - 1);
    }
  }

  /** A result scores the sum of what its two ranks are worth, and is marked degraded without vector results. */
  lemma ResultScoresExactly(settings: Settings, candidates: seq<Chunk>, relevance: Chunk -> nat, side: VectorSide,
                            allowlist: set<string>, j: nat, lexicalRank: nat, vectorRank: nat)
    requires DistinctChunks(candidates) && (side.Returned? ==> DistinctChunks(side.chunks))
    requires j < |settings.Results(candidates, relevance, side, allowlist)|
    requires var result := settings.Results(candidates, relevance, side, allowlist)[j];
             && StandsAt(LexicalSearch(candidates, settings.LexicalAllowlist(allowlist), relevance),
                         result.chunk.chunkId, lexicalRank)
             && StandsAt(settings.VectorResults(side, allowlist), result.chunk.chunkId, vectorRank)
    ensures var result := settings.Results(candidates, relevance, side, allowlist)[j];
            && result.score == Worth(settings.rrfK, lexicalRank) + Worth(settings.rrfK, vectorRank)
            && result.degraded == !side.Returned?
  {
    var lexical := LexicalSearch(candidates, settings.LexicalAllowlist(allowlist), relevance);
    var vector := settings.VectorResults(side, allowlist);
    LexicalSources(candidates, settings.LexicalAllowlist(allowlist), relevance);
    if side.Returned? {
      InSourcesShape(side.chunks, settings.VectorAllowlist(allowlist));
    }
    hide LexicalSearch, Fused, FusedIds, DistinctChunks, InSources, Worth, StandsAt, Score;
    FusedShape(lexical, vector, settings.rrfK);
    ScoreByRank(lexical, settings.rrfK, settings.Results(candidates, relevance, side, allowlist)[j].chunk.chunkId, lexicalRank);
    ScoreByRank(vector, settings.rrfK, settings.Results(candidates, relevance, side, allowlist)[j].chunk.chunkId, vectorRank);
  }

  /** Results come by falling score, and equal scores by chunk id. */
  lemma ResultsByScoreThenId(settings: Settings, candidates: seq<Chunk>, relevance: Chunk -> nat, side: VectorSide,
                             allowlist: set<string>, i: nat, j: nat)
    requires i < j < |settings.Results(candidates, relevance, side, allowlist)|
    ensures var a, b := settings.Results(candidates, relevance, side, allowlist)[i],
                        settings.Results(candidates, relevance, side, allowlist)[j];
            a.score > b.score || (a.score == b.score && StringLe(a.chunk.chunkId, b.chunk.chunkId))
  {
    var lexical := LexicalSearch(candidates, settings.LexicalAllowlist(allowlist), relevance);
    var vector, k := settings.VectorResults(side, allowlist), settings.rrfK;
    hide LexicalSearch, Fused, InSources;
    FusedShape(lexical, vector, k);
    FusedIdsSorted(lexical, vector, k, i, j);
    hide FusedIds, FusedScore, StringLe;
  }

  lemma FusedIdsSorted(lexical: seq<Chunk>, vector: seq<Chunk>, k: nat, i: nat, j: nat)
    requires i < j < |FusedIds(lexical, vector, k)|
    ensures var a, b := FusedIds(lexical, vector, k)[i], FusedIds(lexical, vector, k)[j];
            var x, y := FusedScore(lexical, vector, k, a), FusedScore(lexical, vector, k, b);
            x > y || (x == y && StringLe(a, b))
  {
    var score := id => FusedScore(lexical, vector, k, id);
    RankOrder(score);
    SortedSorts(DistinctIds(lexical + vector), (a, b) => RankLe(score, a, b));
    hide Sorted, DistinctIds, FusedScore, StringLe, KeyOrder;
    var ids := FusedIds(lexical, vector, k);
    assert ((a, b) => RankLe(score, a, b))(ids[i], ids[j]);
  }
}
