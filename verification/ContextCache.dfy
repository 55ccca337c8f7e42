/** The authorisation-aware cache: one map and two inverted indexes that must agree with it. */
module ContextCache {
  import opened Common

  datatype CachedEvidence = CachedEvidence(
    cacheKey: string, evidencePackRef: string, sourceRefs: seq<string>, scopeRef: string, expiresAt: int)

  type Index = map<string, set<string>>

  datatype Cache = Cache(entries: map<string, CachedEvidence>, bySource: Index, byScope: Index)

  // ---------------------------------------------------------------------
  // The operations on values
  // ---------------------------------------------------------------------

  function Keys(index: Index, ref: string): set<string> {
    if ref in index then index[ref] else {}
  }

  function Listed(index: Index, ref: string, key: string): Index {
    index[ref := Keys(index, ref) + {key}]
  }

  function ListedAll(index: Index, refs: seq<string>, key: string): Index {
    if refs == [] then index else Listed(ListedAll(index, refs[..|refs| - 1], key), refs[|refs| - 1], key)
  }

  function Unlisted(index: Index, keys: set<string>): Index {
    map ref <- index :: index[ref] - keys
  }

  function Removed(cache: Cache, keys: set<string>): Cache {
    Cache(cache.entries - keys, Unlisted(cache.bySource, keys), Unlisted(cache.byScope, keys))
  }

  /** The scope also gets a row, possibly empty, in the source index. */
  function Stored(cache: Cache, evidence: CachedEvidence): Cache {
    var rows := cache.bySource[evidence.scopeRef := Keys(cache.bySource, evidence.scopeRef)];
    Cache(cache.entries[evidence.cacheKey := evidence],
          ListedAll(rows, evidence.sourceRefs, evidence.cacheKey),
          Listed(cache.byScope, evidence.scopeRef, evidence.cacheKey))
  }

  predicate Expired(cache: Cache, key: string, now: int) {
    key in cache.entries && now >= cache.entries[key].expiresAt
  }

  function Looked(cache: Cache, key: string, now: int): Cache {
    if Expired(cache, key, now) then Removed(cache, {key}) else cache
  }

  function Found(entries: map<string, CachedEvidence>, key: string, now: int): Option<CachedEvidence> {
    if key in entries && now < entries[key].expiresAt then Some(entries[key]) else None
  }

  function SourceInvalidated(cache: Cache, sourceRef: string): Cache {
    Removed(cache.(bySource := cache.bySource - {sourceRef}), Keys(cache.bySource, sourceRef))
  }

  function ScopeInvalidated(cache: Cache, scopeRef: string): Cache {
    Removed(cache.(byScope := cache.byScope - {scopeRef}), Keys(cache.byScope, scopeRef))
  }

  // ---------------------------------------------------------------------
  // The cache
  // ---------------------------------------------------------------------

  class InMemoryContextCache {
    var entries: map<string, CachedEvidence>
    var bySource: Index
    var byScope: Index

    constructor ()
      ensures View() == Cache(map[], map[], map[])
    {
      entries, bySource, byScope := map[], map[], map[];
    }

    function View(): Cache
      reads this
    {
      Cache(entries, bySource, byScope)
    }

    method Get(key: string, now: int) returns (found: Option<CachedEvidence>)
      modifies this
      ensures View() == Looked(old(View()), key, now)
      ensures found == Found(old(entries), key, now)
    {
      if key !in entries {
        return None;
      }
      var entry := entries[key];
      if now >= entry.expiresAt {
        Remove(key);
        return None;
      }
      return Some(entry);
    }

    method Put(evidence: CachedEvidence)
      modifies this
      ensures View() == Stored(old(View()), evidence)
    {
      entries := entries[evidence.cacheKey := evidence];
      bySource := bySource[evidence.scopeRef := Keys(bySource, evidence.scopeRef)];
      ghost var rows := bySource;
      for s := 0 to |evidence.sourceRefs|
        invariant bySource == ListedAll(rows, evidence.sourceRefs[..s], evidence.cacheKey)
        invariant entries == old(entries)[evidence.cacheKey := evidence] && byScope == old(byScope)
      {
        assert evidence.sourceRefs[..s + 1][..s] == evidence.sourceRefs[..s];
        bySource := Listed(bySource, evidence.sourceRefs[s], evidence.cacheKey);
      }
      assert evidence.sourceRefs[..|evidence.sourceRefs|] == evidence.sourceRefs;
      byScope := Listed(byScope, evidence.scopeRef, evidence.cacheKey);
    }

    method InvalidateSource(sourceRef: string) returns (count: nat)
      modifies this
      ensures View() == SourceInvalidated(old(View()), sourceRef)
      ensures count == |Keys(old(bySource), sourceRef)|
    {
      var keys := Keys(bySource, sourceRef);
      bySource := bySource - {sourceRef};
      RemoveAll(keys);
      return |keys|;
    }

    method InvalidateScope(scopeRef: string) returns (count: nat)
      modifies this
      ensures View() == ScopeInvalidated(old(View()), scopeRef)
      ensures count == |Keys(old(byScope), scopeRef)|
    {
      var keys := Keys(byScope, scopeRef);
      byScope := byScope - {scopeRef};
      RemoveAll(keys);
      return |keys|;
    }

    method RemoveAll(keys: set<string>)
      modifies this
      ensures View() == Removed(old(View()), keys)
    {
      var todo := keys;
      RemovedNone(old(View()));
      assert keys - todo == {};
      while todo != {}
        invariant todo <= keys
        invariant View() == Removed(old(View()), keys - todo)
        decreases |todo|
      {
        var key :| key in todo;
        RemovedOneMore(old(View()), keys - todo, key);
        assert keys - (todo - {key}) == keys - todo + {key};
        Remove(key);
        todo := todo - {key};
      }
      assert keys - {} == keys;
    }

    method Remove(key: string)
      modifies this
      ensures View() == Removed(old(View()), {key})
    {
      entries := entries - {key};
      bySource := Discard(bySource, key);
      byScope := Discard(byScope, key);
    }

    static method Discard(index: Index, key: string) returns (discarded: Index)
      ensures discarded == Unlisted(index, {key})
    {
      var todo := index.Keys;
      discarded := index;
      while todo != {}
        invariant todo <= index.Keys == discarded.Keys
        invariant forall ref <- index :: discarded[ref] == if ref in todo then index[ref] else index[ref] - {key}
        decreases |todo|
      {
        var ref :| ref in todo;
        discarded := discarded[ref := discarded[ref] - {key}];
        todo := todo - {ref};
      }
    }
  }

  lemma UnlistedNone(index: Index)
    ensures Unlisted(index, {}) == index
  {
    assert Unlisted(index, {}).Keys == index.Keys;
    forall ref <- index ensures Unlisted(index, {})[ref] == index[ref] {
      assert index[ref] - {} == index[ref];
    }
  }

  lemma RemovedNone(cache: Cache)
    ensures Removed(cache, {}) == cache
  {
    UnlistedNone(cache.bySource);
    UnlistedNone(cache.byScope);
  }

  lemma RemovedOneMore(cache: Cache, keys: set<string>, key: string)
    ensures Removed(Removed(cache, keys), {key}) == Removed(cache, keys + {key})
  {
    UnlistedOneMore(cache.bySource, keys, key);
    UnlistedOneMore(cache.byScope, keys, key);
    assert cache.entries - keys - {key} == cache.entries - (keys + {key});
  }

  lemma UnlistedOneMore(index: Index, keys: set<string>, key: string)
    ensures Unlisted(Unlisted(index, keys), {key}) == Unlisted(index, keys + {key})
  {
    var twice, once := Unlisted(Unlisted(index, keys), {key}), Unlisted(index, keys + {key});
    forall ref <- index ensures twice[ref] == once[ref] {
      assert index[ref] - keys - {key} == index[ref] - (keys + {key});
    }
    assert twice.Keys == index.Keys == once.Keys;
  }

  // ---------------------------------------------------------------------
  // The cache key
  // ---------------------------------------------------------------------

  function Joined(parts: seq<string>): string {
    if parts == [] then ""
    else if |parts| == 1 then parts[0]
    else parts[0] + "|" + Joined(parts[1..])
  }

  /** The eight parts, the principal last. */
  function CacheKey(tenantId: string, scopeSummary: string, purpose: string, queryDigest: string,
                    sourceVersionsDigest: string, policyVersion: string, region: string, principalRef: string): string {
    Joined([tenantId, scopeSummary, purpose, queryDigest, sourceVersionsDigest, policyVersion, region, principalRef])
  }

  /** The text before the first separator. */
  function Before(text: string): string {
    if text == "" || text[0] == '|' then "" else [text[0]] + Before(text[1..])
  }

  lemma {:induction false} BeforeSeparator(part: string, rest: string)
    requires '|' !in part
    ensures Before(part + "|" + rest) == part
  {
    if part != "" {
      assert (part + "|" + rest)[1..] == part[1..] + "|" + rest;
      BeforeSeparator(part[1..], rest);
    }
  }

  lemma FirstPart(a: string, b: string, x: string, y: string)
    requires '|' !in a && '|' !in b && a + "|" + x == b + "|" + y
    ensures a == b && x == y
  {
    BeforeSeparator(a, x);
    BeforeSeparator(b, y);
    assert x == (a + "|" + x)[|a| + 1..] && y == (b + "|" + y)[|b| + 1..];
  }

  /** Keys tell all parts apart when no part but the last contains the separator. */
  lemma {:induction false} JoinedIsInjective(a: seq<string>, b: seq<string>)
    requires |a| == |b| && Joined(a) == Joined(b)
    requires forall i | 0 <= i < |a| - 1 :: '|' !in a[i] && '|' !in b[i]
    ensures a == b
  {
    if |a| > 1 {
      FirstPart(a[0], b[0], Joined(a[1..]), Joined(b[1..]));
      JoinedIsInjective(a[1..], b[1..]);
      assert a == [a[0]] + a[1..] && b == [b[0]] + b[1..];
    }
  }

  /** With the first parts equal, only equal last parts give equal keys, whatever the parts contain. */
  lemma {:induction false} LastPartSeparates(init: seq<string>, x: string, y: string)
    requires Joined(init + [x]) == Joined(init + [y])
    ensures x == y
  {
    if init != [] {
      assert (init + [x])[1..] == init[1..] + [x] && (init + [y])[1..] == init[1..] + [y];
      var rest := init[0] + "|";
      assert (rest + Joined(init[1..] + [x]))[|rest|..] == Joined(init[1..] + [x]);
      assert (rest + Joined(init[1..] + [y]))[|rest|..] == Joined(init[1..] + [y]);
      LastPartSeparates(init[1..], x, y);
    } else {
      assert [] + [x] == [x] && [] + [y] == [y];
    }
  }

  /** Putting a separator between two neighbouring parts, or taking it as part of the text, is the same key. */
  lemma {:induction false} SplitAnywhere(before: seq<string>, x: string, y: string, after: seq<string>)
    ensures Joined(before + [x, y] + after) == Joined(before + [x + "|" + y] + after)
  {
    if before == [] {
      assert [] + [x, y] + after == [x, y] + after && [] + [x + "|" + y] + after == [x + "|" + y] + after;
      assert ([x, y] + after)[1..] == [y] + after && ([y] + after)[1..] == after == ([x + "|" + y] + after)[1..];
      assert x + "|" + (y + "|" + Joined(after)) == x + "|" + y + "|" + Joined(after);
    } else {
      assert (before + [x, y] + after)[1..] == before[1..] + [x, y] + after;
      assert (before + [x + "|" + y] + after)[1..] == before[1..] + [x + "|" + y] + after;
      SplitAnywhere(before[1..], x, y, after);
    }
  }

  /** A part that contains the separator, split at it. */
  lemma SplitPart(part: string) returns (x: string, y: string)
    requires '|' in part
    ensures part == x + "|" + y
  {
    var i :| 0 <= i < |part| && part[i] == '|';
    x, y := part[..i], part[i + 1..];
    assert part == part[..i] + [part[i]] + part[i + 1..];
  }

  /** Parts, one of which contains the separator, have the key of other parts that end differently. */
  lemma SeparatorShifts(parts: seq<string>, i: nat) returns (other: seq<string>)
    requires |parts| >= 2 && i < |parts| && '|' in parts[i]
    ensures |other| == |parts| && Joined(other) == Joined(parts)
    ensures other[|other| - 1] != parts[|parts| - 1]
  {
    var n := |parts|;
    var x, y := SplitPart(parts[i]);
    var longer := parts[..i] + [x, y] + parts[i + 1..];
    assert parts == parts[..i] + [x + "|" + y] + parts[i + 1..];
    SplitAnywhere(parts[..i], x, y, parts[i + 1..]);
    if i == n - 1 {
      // The last boundary moves to the right: the part before takes in the text up to the separator.
      var before := parts[..n - 2];
      assert longer == before + [parts[n - 2], x] + [y];
      SplitAnywhere(before, parts[n - 2], x, [y]);
      other := before + [parts[n - 2] + "|" + x] + [y];
    } else {
      // The boundaries after the separator move one place to the left.
      other := longer[..n - 1] + [longer[n - 1] + "|" + longer[n]];
      assert longer == longer[..n - 1] + [longer[n - 1], longer[n]] + [];
      SplitAnywhere(longer[..n - 1], longer[n - 1], longer[n], []);
      assert other == longer[..n - 1] + [longer[n - 1] + "|" + longer[n]] + [];
      assert longer[n] == parts[n - 1];
    }
  }

  function Separators(text: string): nat {
    if text == "" then 0 else (if text[0] == '|' then 1 else 0) + Separators(text[1..])
  }

  lemma {:induction false} SeparatorsConcat(a: string, b: string)
    ensures Separators(a + b) == Separators(a) + Separators(b)
  {
    if a == "" {
      assert a + b == b;
    } else {
      assert (a + b)[1..] == a[1..] + b;
      SeparatorsConcat(a[1..], b);
    }
  }

  lemma {:induction false} SeparatorsNone(text: string)
    ensures Separators(text) == 0 <==> '|' !in text
  {
    if text != "" {
      SeparatorsNone(text[1..]);
      assert text == [text[0]] + text[1..];
    }
  }

  /** A key has the separators between its parts, and those inside them. */
  lemma {:induction false} JoinedSeparators(parts: seq<string>)
    requires parts != []
    ensures Separators(Joined(parts)) >= |parts| - 1
    ensures Separators(Joined(parts)) == |parts| - 1 <==> forall part <- parts :: '|' !in part
  {
    SeparatorsNone(parts[0]);
    if |parts| > 1 {
      JoinedSeparators(parts[1..]);
      SeparatorsConcat(parts[0] + "|", Joined(parts[1..]));
      SeparatorsConcat(parts[0], "|");
      assert Separators("|") == 1;
      assert parts == [parts[0]] + parts[1..];
    }
  }

  /** Some other list of as many parts has the same key. */
  ghost predicate Ambiguous(parts: seq<string>) {
    exists other: seq<string> :: |other| == |parts| && other != parts && Joined(other) == Joined(parts)
  }

  /** One whose last part differs, too. */
  ghost predicate LastIsAmbiguous(parts: seq<string>)
    requires parts != []
  {
    exists other: seq<string> ::
      |other| == |parts| && other[|other| - 1] != parts[|parts| - 1] && Joined(other) == Joined(parts)
  }

  /** A key is shared with other parts exactly when some part contains the separator, and then also with another last part. */
  lemma AmbiguousExactly(parts: seq<string>)
    requires |parts| >= 2
    ensures Ambiguous(parts) <==> exists part <- parts :: '|' in part
    ensures LastIsAmbiguous(parts) <==> exists part <- parts :: '|' in part
  {
    if exists part <- parts :: '|' in part {
      var i :| 0 <= i < |parts| && '|' in parts[i];
      var other := SeparatorShifts(parts, i);
      assert other != parts;
    } else {
      forall other: seq<string> | |other| == |parts| && Joined(other) == Joined(parts) ensures other == parts {
        JoinedSeparators(parts);
        JoinedSeparators(other);
        JoinedIsInjective(other, parts);
      }
    }
  }

  /** The eight parts of a request's key. */
  function KeyOf(parts: seq<string>): string
    requires |parts| == 8
  {
    CacheKey(parts[0], parts[1], parts[2], parts[3], parts[4], parts[5], parts[6], parts[7])
  }

  /**
   * Two principals never share a key when their requests agree in the seven other parts, whatever the
   * parts contain, or when none of those parts of either request contains the separator.
   */
  lemma PrincipalsNeverShareKeys(a: seq<string>, b: seq<string>)
    requires |a| == |b| == 8 && a[7] != b[7]
    requires a[..7] == b[..7] || forall i | 0 <= i < 7 :: '|' !in a[i] && '|' !in b[i]
    ensures KeyOf(a) != KeyOf(b)
  {
    KeyIsJoined(a);
    KeyIsJoined(b);
    hide Joined, KeyOf;
    if Joined(a) == Joined(b) {
      if a[..7] == b[..7] {
        assert a == a[..7] + [a[7]] && b == a[..7] + [b[7]];
        LastPartSeparates(a[..7], a[7], b[7]);
      } else {
        JoinedIsInjective(a, b);
      }
    }
  }

  lemma KeyIsJoined(parts: seq<string>)
    requires |parts| == 8
    ensures KeyOf(parts) == Joined(parts)
  {
    assert parts == [parts[0], parts[1], parts[2], parts[3], parts[4], parts[5], parts[6], parts[7]];
  }

  /**
   * Another principal's request shares a request's key exactly when some part of that request
   * contains the separator.
   */
  lemma PrincipalsShareKeysExactly(parts: seq<string>)
    requires |parts| == 8
    ensures (exists other: seq<string> :: |other| == 8 && other[7] != parts[7] && KeyOf(other) == KeyOf(parts))
            <==> exists part <- parts :: '|' in part
  {
    AmbiguousExactly(parts);
    forall other: seq<string> | |other| == 8 ensures KeyOf(other) == Joined(other) {
      assert other == [other[0], other[1], other[2], other[3], other[4], other[5], other[6], other[7]];
    }
    hide KeyOf, Joined;
    if LastIsAmbiguous(parts) {
      var other: seq<string> :|
        |other| == |parts| && other[|other| - 1] != parts[|parts| - 1] && Joined(other) == Joined(parts);
      assert KeyOf(other) == KeyOf(parts);
    }
  }

  /** The region and the principal run into each other: "r|a" with "b" has the key of "r" with "a|b". */
  lemma SeparatorCollides(tenantId: string, scopeSummary: string, purpose: string, queryDigest: string,
                          versions: string, policyVersion: string, region: string, a: string, b: string)
    ensures CacheKey(tenantId, scopeSummary, purpose, queryDigest, versions, policyVersion, region + "|" + a, b)
         == CacheKey(tenantId, scopeSummary, purpose, queryDigest, versions, policyVersion, region, a + "|" + b)
    ensures b != a + "|" + b
  {
    var before := [tenantId, scopeSummary, purpose, queryDigest, versions, policyVersion];
    assert before + [region + "|" + a] + [b] ==
           [tenantId, scopeSummary, purpose, queryDigest, versions, policyVersion, region + "|" + a, b];
    assert (before + [region]) + [a + "|" + b] + [] ==
           [tenantId, scopeSummary, purpose, queryDigest, versions, policyVersion, region, a + "|" + b];
    SplitAnywhere(before, region, a, [b]);
    SplitAnywhere(before + [region], a, b, []);
    assert before + [region, a] + [b] == (before + [region]) + [a, b] + [];
    assert |a + "|" + b| > |b|;
  }

  // ---------------------------------------------------------------------
  // What every operation keeps
  // ---------------------------------------------------------------------

  /** An entry sits under its own key and is listed under all its sources and its scope. */
  ghost predicate EntryListed(cache: Cache, key: string, entry: CachedEvidence) {
    && entry.cacheKey == key
    && (forall source <- entry.sourceRefs :: key in Keys(cache.bySource, source))
    && key in Keys(cache.byScope, entry.scopeRef)
  }

  ghost predicate EntriesListed(cache: Cache) {
    forall key <- cache.entries :: EntryListed(cache, key, cache.entries[key])
  }

  /** Whatever an index lists is live. */
  ghost predicate ListsLive(index: Index, entries: map<string, CachedEvidence>) {
    forall ref :: Keys(index, ref) <= entries.Keys
  }

  ghost predicate Sound(cache: Cache) {
    EntriesListed(cache) && ListsLive(cache.bySource, cache.entries) && ListsLive(cache.byScope, cache.entries)
  }

  /** A live key is listed under no source or scope that its entry does not name. */
  ghost predicate EntryExact(cache: Cache, key: string, entry: CachedEvidence) {
    && (forall ref | key in Keys(cache.bySource, ref) :: ref in entry.sourceRefs)
    && (forall ref | key in Keys(cache.byScope, ref) :: ref == entry.scopeRef)
  }

  ghost predicate Exact(cache: Cache) {
    forall key <- cache.entries :: EntryExact(cache, key, cache.entries[key])
  }

  lemma {:induction false} ListedAllKeys(index: Index, refs: seq<string>, key: string, ref: string)
    ensures Keys(ListedAll(index, refs, key), ref) == if ref in refs then Keys(index, ref) + {key} else Keys(index, ref)
  {
    if refs != [] {
      ListedAllKeys(index, refs[..|refs| - 1], key, ref);
      assert refs == refs[..|refs| - 1] + [refs[|refs| - 1]];
    }
  }

  /** How the entries and the two indexes read after a store. */
  ghost predicate StoredAs(before: Cache, after: Cache, evidence: CachedEvidence) {
    var key := evidence.cacheKey;
    && after.entries == before.entries[key := evidence]
    && (forall ref, k :: k in Keys(after.bySource, ref) <==>
          k in Keys(before.bySource, ref) || (k == key && ref in evidence.sourceRefs))
    && (forall ref, k :: k in Keys(after.byScope, ref) <==>
          k in Keys(before.byScope, ref) || (k == key && ref == evidence.scopeRef))
  }

  lemma StoreStores(cache: Cache, evidence: CachedEvidence)
    ensures StoredAs(cache, Stored(cache, evidence), evidence)
  {
    var rows := cache.bySource[evidence.scopeRef := Keys(cache.bySource, evidence.scopeRef)];
    forall ref ensures Keys(Stored(cache, evidence).bySource, ref) ==
                       if ref in evidence.sourceRefs then Keys(cache.bySource, ref) + {evidence.cacheKey}
                       else Keys(cache.bySource, ref)
    {
      ListedAllKeys(rows, evidence.sourceRefs, evidence.cacheKey, ref);
    }
  }

  lemma StoreKeepsSound(before: Cache, after: Cache, evidence: CachedEvidence)
    requires Sound(before) && StoredAs(before, after, evidence)
    ensures Sound(after)
  {
    hide Keys;
    forall key <- after.entries ensures EntryListed(after, key, after.entries[key]) {
      assert key != evidence.cacheKey ==> EntryListed(before, key, before.entries[key]);
    }
    forall ref ensures Keys(after.bySource, ref) <= after.entries.Keys && Keys(after.byScope, ref) <= after.entries.Keys {
      assert Keys(before.bySource, ref) <= before.entries.Keys && Keys(before.byScope, ref) <= before.entries.Keys;
    }
  }

  /** Some keys are gone from the entries and from every row of both indexes. */
  ghost predicate Dropped(before: Cache, after: Cache, gone: set<string>) {
    && after.entries == before.entries - gone
    && (forall ref :: Keys(after.bySource, ref) == Keys(before.bySource, ref) - gone)
    && (forall ref :: Keys(after.byScope, ref) == Keys(before.byScope, ref) - gone)
  }

  lemma RemovalDrops(cache: Cache, key: string)
    ensures Dropped(cache, Removed(cache, {key}), {key})
  {
    UnlistedKeys(cache.bySource, {key});
    UnlistedKeys(cache.byScope, {key});
    hide Unlisted, Keys;
  }

  lemma SourceDrops(cache: Cache, ref: string)
    ensures Dropped(cache, SourceInvalidated(cache, ref), Keys(cache.bySource, ref))
  {
    UnlistedKeys(cache.bySource - {ref}, Keys(cache.bySource, ref));
    UnlistedKeys(cache.byScope, Keys(cache.bySource, ref));
    hide Unlisted;
  }

  lemma ScopeDrops(cache: Cache, ref: string)
    ensures Dropped(cache, ScopeInvalidated(cache, ref), Keys(cache.byScope, ref))
  {
    UnlistedKeys(cache.bySource, Keys(cache.byScope, ref));
    UnlistedKeys(cache.byScope - {ref}, Keys(cache.byScope, ref));
    hide Unlisted;
  }

  lemma UnlistedKeys(index: Index, keys: set<string>)
    ensures forall ref :: Keys(Unlisted(index, keys), ref) == Keys(index, ref) - keys
  {
  }

  lemma DropKeepsSound(before: Cache, after: Cache, gone: set<string>)
    requires Sound(before) && Dropped(before, after, gone)
    ensures Sound(after)
  {
    hide Keys;
    forall key <- after.entries ensures EntryListed(after, key, after.entries[key]) {
      assert EntryListed(before, key, before.entries[key]);
    }
    assert after.entries.Keys == before.entries.Keys - gone;
  }

  lemma DropKeepsExact(before: Cache, after: Cache, gone: set<string>)
    requires Exact(before) && Dropped(before, after, gone)
    ensures Exact(after)
  {
    hide Keys;
    forall key <- after.entries ensures EntryExact(after, key, after.entries[key]) {
      assert EntryExact(before, key, before.entries[key]);
    }
  }

  /** After invalidating a source no live entry names it, and the count is the number of entries removed. */
  lemma SourceInvalidationIsComplete(cache: Cache, sourceRef: string)
    requires Sound(cache)
    ensures var after := SourceInvalidated(cache, sourceRef);
            && after.entries == cache.entries - Keys(cache.bySource, sourceRef)
            && (forall key <- after.entries :: sourceRef !in after.entries[key].sourceRefs)
            && |Keys(cache.bySource, sourceRef)| == |cache.entries| - |after.entries|
  {
    SourceDrops(cache, sourceRef);
    hide Keys, SourceInvalidated;
    RemovedCount(cache.entries, Keys(cache.bySource, sourceRef));
    var after := SourceInvalidated(cache, sourceRef);
    forall key <- after.entries ensures sourceRef !in after.entries[key].sourceRefs {
      assert EntryListed(cache, key, cache.entries[key]);
    }
  }

  lemma ScopeInvalidationIsComplete(cache: Cache, scopeRef: string)
    requires Sound(cache)
    ensures var after := ScopeInvalidated(cache, scopeRef);
            && after.entries == cache.entries - Keys(cache.byScope, scopeRef)
            && (forall key <- after.entries :: after.entries[key].scopeRef != scopeRef)
            && |Keys(cache.byScope, scopeRef)| == |cache.entries| - |after.entries|
  {
    ScopeDrops(cache, scopeRef);
    hide Keys, ScopeInvalidated;
    RemovedCount(cache.entries, Keys(cache.byScope, scopeRef));
    var after := ScopeInvalidated(cache, scopeRef);
    forall key <- after.entries ensures after.entries[key].scopeRef != scopeRef {
      assert EntryListed(cache, key, cache.entries[key]);
    }
  }

  lemma RemovedCount(entries: map<string, CachedEvidence>, keys: set<string>)
    requires keys <= entries.Keys
    ensures |keys| == |entries| - |entries - keys|
  {
    assert (entries - keys).Keys == entries.Keys - keys;
    assert entries.Keys == keys + (entries.Keys - keys);
    assert |entries| == |entries.Keys| && |entries - keys| == |(entries - keys).Keys|;
  }

  // ---------------------------------------------------------------------
  // Every history, and the plain map it refines
  // ---------------------------------------------------------------------

  datatype Op =
    | Get(key: string, now: int)
    | Put(evidence: CachedEvidence)
    | InvalidateSource(sourceRef: string)
    | InvalidateScope(scopeRef: string)

  function Apply(cache: Cache, op: Op): Cache {
    match op
    case Get(key, now) => Looked(cache, key, now)
    case Put(evidence) => Stored(cache, evidence)
    case InvalidateSource(sourceRef) => SourceInvalidated(cache, sourceRef)
    case InvalidateScope(scopeRef) => ScopeInvalidated(cache, scopeRef)
  }

  function Exec(ops: seq<Op>): Cache {
    if ops == [] then Cache(map[], map[], map[]) else Apply(Exec(ops[..|ops| - 1]), ops[|ops| - 1])
  }

  lemma StepKeepsSound(cache: Cache, op: Op)
    requires Sound(cache)
    ensures Sound(Apply(cache, op))
  {
    hide Sound, Stored, StoredAs, Removed, SourceInvalidated, ScopeInvalidated, Dropped;
    match op
    case Get(key, now) =>
      RemovalDrops(cache, key);
      if Expired(cache, key, now) {
        DropKeepsSound(cache, Removed(cache, {key}), {key});
      }
    case Put(evidence) =>
      StoreStores(cache, evidence);
      StoreKeepsSound(cache, Stored(cache, evidence), evidence);
    case InvalidateSource(ref) =>
      SourceDrops(cache, ref);
      DropKeepsSound(cache, SourceInvalidated(cache, ref), Keys(cache.bySource, ref));
    case InvalidateScope(ref) =>
      ScopeDrops(cache, ref);
      DropKeepsSound(cache, ScopeInvalidated(cache, ref), Keys(cache.byScope, ref));
  }

  /** The indexes and the entries agree after every history. */
  lemma {:induction false} ReachableSound(ops: seq<Op>)
    ensures Sound(Exec(ops))
  {
    if ops != [] {
      ReachableSound(ops[..|ops| - 1]);
      hide Sound;
      StepKeepsSound(Exec(ops[..|ops| - 1]), ops[|ops| - 1]);
    }
  }

  type Plain = map<string, CachedEvidence>

  /** The cache without indexes: invalidation deletes what names the source or the scope. */
  function PlainApply(entries: Plain, op: Op): Plain {
    match op
    case Get(key, now) => if key in entries && now >= entries[key].expiresAt then entries - {key} else entries
    case Put(evidence) => entries[evidence.cacheKey := evidence]
    case InvalidateSource(sourceRef) =>
      map key <- entries | sourceRef !in entries[key].sourceRefs :: entries[key]
    case InvalidateScope(scopeRef) =>
      map key <- entries | entries[key].scopeRef != scopeRef :: entries[key]
  }

  function PlainExec(ops: seq<Op>): Plain {
    if ops == [] then map[] else PlainApply(PlainExec(ops[..|ops| - 1]), ops[|ops| - 1])
  }

  /** A live entry is only overwritten by one of the same scope that names at least the same sources. */
  predicate Conforms(entries: Plain, op: Op) {
    op.Put? && op.evidence.cacheKey in entries ==>
      var prior := entries[op.evidence.cacheKey];
      prior.scopeRef == op.evidence.scopeRef && forall source <- prior.sourceRefs :: source in op.evidence.sourceRefs
  }

  ghost predicate ConformingRun(ops: seq<Op>) {
    ops == [] || (ConformingRun(ops[..|ops| - 1]) && Conforms(PlainExec(ops[..|ops| - 1]), ops[|ops| - 1]))
  }

  /** Storing keeps the indexes exact precisely when it conforms. */
  lemma StoreKeepsExactExactly(cache: Cache, evidence: CachedEvidence)
    requires Sound(cache) && Exact(cache)
    ensures Exact(Stored(cache, evidence)) <==> Conforms(cache.entries, Put(evidence))
  {
    hide Sound, Exact, Conforms, StoredAs, Stored;
    StoreStores(cache, evidence);
    if Exact(Stored(cache, evidence)) {
      ExactStoreConforms(cache, Stored(cache, evidence), evidence);
    }
    if Conforms(cache.entries, Put(evidence)) {
      ConformingStoreIsExact(cache, Stored(cache, evidence), evidence);
    }
  }

  lemma ExactStoreConforms(before: Cache, after: Cache, evidence: CachedEvidence)
    requires Sound(before) && StoredAs(before, after, evidence) && Exact(after)
    ensures Conforms(before.entries, Put(evidence))
  {
    hide Keys;
    var key := evidence.cacheKey;
    assert EntryExact(after, key, after.entries[key]);
    if key in before.entries {
      assert EntryListed(before, key, before.entries[key]);
      assert forall source <- before.entries[key].sourceRefs :: key in Keys(before.bySource, source);
    }
  }

  lemma ConformingStoreIsExact(before: Cache, after: Cache, evidence: CachedEvidence)
    requires Sound(before) && Exact(before) && StoredAs(before, after, evidence)
    requires Conforms(before.entries, Put(evidence))
    ensures Exact(after)
  {
    hide Keys;
    forall key <- after.entries ensures EntryExact(after, key, after.entries[key]) {
      if key in before.entries {
        assert EntryExact(before, key, before.entries[key]);
      } else {
        assert forall ref :: Keys(before.bySource, ref) <= before.entries.Keys && Keys(before.byScope, ref) <= before.entries.Keys;
      }
    }
  }

  lemma StepKeepsExact(cache: Cache, op: Op)
    requires Sound(cache) && Exact(cache) && Conforms(cache.entries, op)
    ensures Exact(Apply(cache, op)) && Apply(cache, op).entries == PlainApply(cache.entries, op)
  {
    hide Sound, Exact, Removed, SourceInvalidated, ScopeInvalidated, Dropped, Keys;
    match op
    case Get(key, now) =>
      RemovalDrops(cache, key);
      DropKeepsExact(cache, Removed(cache, {key}), {key});
      RemovedEntries(cache, key);
    case Put(evidence) => StoreKeepsExactExactly(cache, evidence);
    case InvalidateSource(ref) =>
      SourceDrops(cache, ref);
      DropKeepsExact(cache, SourceInvalidated(cache, ref), Keys(cache.bySource, ref));
      SourceFilter(cache, ref);
    case InvalidateScope(ref) =>
      ScopeDrops(cache, ref);
      DropKeepsExact(cache, ScopeInvalidated(cache, ref), Keys(cache.byScope, ref));
      ScopeFilter(cache, ref);
  }

  lemma RemovedEntries(cache: Cache, key: string)
    ensures Removed(cache, {key}).entries == cache.entries - {key}
  {
  }

  /** Sound and exact together: an index lists a key exactly under what its entry names. */
  lemma ListedExactly(cache: Cache, key: string, ref: string)
    requires Sound(cache) && Exact(cache) && key in cache.entries
    ensures key in Keys(cache.bySource, ref) <==> ref in cache.entries[key].sourceRefs
    ensures key in Keys(cache.byScope, ref) <==> ref == cache.entries[key].scopeRef
  {
    hide Keys;
    assert EntryListed(cache, key, cache.entries[key]) && EntryExact(cache, key, cache.entries[key]);
  }

  /** With exact indexes an invalidation is a deletion by filter. */
  lemma SourceFilter(cache: Cache, sourceRef: string)
    requires Sound(cache) && Exact(cache)
    ensures SourceInvalidated(cache, sourceRef).entries == PlainApply(cache.entries, InvalidateSource(sourceRef))
  {
    hide Sound, Exact, Keys;
    assert SourceInvalidated(cache, sourceRef).entries == cache.entries - Keys(cache.bySource, sourceRef);
    hide SourceInvalidated;
    forall key <- cache.entries ensures key in Keys(cache.bySource, sourceRef) <==> sourceRef in cache.entries[key].sourceRefs {
      ListedExactly(cache, key, sourceRef);
    }
  }

  lemma ScopeFilter(cache: Cache, scopeRef: string)
    requires Sound(cache) && Exact(cache)
    ensures ScopeInvalidated(cache, scopeRef).entries == PlainApply(cache.entries, InvalidateScope(scopeRef))
  {
    hide Sound, Exact, Keys;
    assert ScopeInvalidated(cache, scopeRef).entries == cache.entries - Keys(cache.byScope, scopeRef);
    hide ScopeInvalidated;
    forall key <- cache.entries ensures key in Keys(cache.byScope, scopeRef) <==> scopeRef == cache.entries[key].scopeRef {
      ListedExactly(cache, key, scopeRef);
    }
  }

  /** As long as overwrites conform, the cache is a plain map whose invalidations delete by filter. */
  lemma {:induction false} RefinesPlainMap(ops: seq<Op>)
    requires ConformingRun(ops)
    ensures Exec(ops).entries == PlainExec(ops) && Exact(Exec(ops))
  {
    if ops != [] {
      var init := ops[..|ops| - 1];
      RefinesPlainMap(init);
      ReachableSound(init);
      hide Sound, Exact, Apply, PlainApply, Conforms;
      StepKeepsExact(Exec(init), ops[|ops| - 1]);
    }
  }

  /** Otherwise it deletes too much: an overwritten entry goes with a source that it no longer names. */
  lemma OverwriteOverInvalidates(cache: Cache, evidence: CachedEvidence, sourceRef: string)
    requires Sound(cache) && evidence.cacheKey in cache.entries
    requires sourceRef in cache.entries[evidence.cacheKey].sourceRefs && sourceRef !in evidence.sourceRefs
    ensures var after := SourceInvalidated(Stored(cache, evidence), sourceRef);
            && evidence.cacheKey !in after.entries
            && evidence.cacheKey in PlainApply(Stored(cache, evidence).entries, InvalidateSource(sourceRef))
  {
    StoreStores(cache, evidence);
    assert EntryListed(cache, evidence.cacheKey, cache.entries[evidence.cacheKey]);
  }

  /** Likewise with a scope that the overwritten entry had and the new one has not. */
  lemma OverwriteOverInvalidatesScope(cache: Cache, evidence: CachedEvidence)
    requires Sound(cache) && evidence.cacheKey in cache.entries
    requires cache.entries[evidence.cacheKey].scopeRef != evidence.scopeRef
    ensures var oldScope := cache.entries[evidence.cacheKey].scopeRef;
            && evidence.cacheKey !in ScopeInvalidated(Stored(cache, evidence), oldScope).entries
            && evidence.cacheKey in PlainApply(Stored(cache, evidence).entries, InvalidateScope(oldScope))
  {
    StoreStores(cache, evidence);
    assert EntryListed(cache, evidence.cacheKey, cache.entries[evidence.cacheKey]);
  }

  // ---------------------------------------------------------------------
  // Expiry
  // ---------------------------------------------------------------------

  /** What was stored is found until it expires, under its own key; other keys are not touched. */
  lemma StoredIsFoundUntilExpiry(cache: Cache, evidence: CachedEvidence, key: string, now: int)
    ensures Found(Stored(cache, evidence).entries, key, now) ==
            if key != evidence.cacheKey then Found(cache.entries, key, now)
            else if evidence.expiresAt > now then Some(evidence) else None
  {
  }

  /** Looking a key up forgets it exactly when it has expired, and nothing else in either case. */
  lemma LookingForgetsExpired(cache: Cache, key: string, now: int, other: string, later: int)
    ensures Found(Looked(cache, key, now).entries, other, later) ==
            if other == key && Found(cache.entries, key, now) == None && key in cache.entries then None
            else Found(cache.entries, other, later)
    ensures key in cache.entries ==>
              (key in Looked(cache, key, now).entries <==> now < cache.entries[key].expiresAt)
  {
  }
}
