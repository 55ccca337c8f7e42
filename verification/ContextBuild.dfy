/** Building a context manifest: access filter, deterministic selection, token budget, packing. */
module ContextBuild {
  import opened Common
  import opened Sorting
  import opened TokenBudgeter
  import opened BudgetLaws

  const ITEM_OVERHEAD_TOKENS := 24

  datatype SourceDocument = SourceDocument(
    sourceRef: string, sourceVersion: string, contentDigest: string,
    allowedScopes: seq<string>, trustLabel: string, snippet: Option<string>)

  datatype ManifestSection = ManifestSection(sectionRef: string, sourceRefs: seq<string>, tokens: int)

  datatype SelectionDecision = SelectionDecision(sourceRef: string, selected: bool)

  datatype ContextManifest = ContextManifest(
    sections: seq<ManifestSection>, sourceRefs: seq<string>, budgetBefore: int, budgetAfter: int,
    decisions: seq<SelectionDecision>, omissions: seq<string>, trustLabels: seq<string>)

  datatype BuildError = BudgetRejected(reason: FailureReason) | NegativeReserve

  function TierOf(trustLabel: string): nat {
    if trustLabel == "tier0" then 0
    else if trustLabel == "high" then 1
    else if trustLabel == "medium" then 2
    else 4
  }

  function SourceTier(source: SourceDocument): nat {
    TierOf(source.trustLabel)
  }

  // ---------------------------------------------------------------------
  // Access filter and selection
  // ---------------------------------------------------------------------

  predicate Authorised(source: SourceDocument, principalScopes: seq<string>) {
    exists scope <- source.allowedScopes :: scope in principalScopes
  }

  function Filtered(sources: seq<SourceDocument>, keep: SourceDocument -> bool): seq<SourceDocument> {
    if sources == [] then []
    else
      var earlier, last := Filtered(sources[..|sources| - 1], keep), sources[|sources| - 1];
      if keep(last) then earlier + [last] else earlier
  }

  predicate SourceLe(a: SourceDocument, b: SourceDocument) {
    SourceTier(a) < SourceTier(b) || (SourceTier(a) == SourceTier(b) && StringLe(a.sourceRef, b.sourceRef))
  }

  lemma SourceOrder()
    ensures KeyOrder(SourceLe)
  {
    forall a, b ensures SourceLe(a, b) || SourceLe(b, a) {
      StringLeTotal(a.sourceRef, b.sourceRef);
    }
    forall a, b, c | SourceLe(a, b) && SourceLe(b, c) ensures SourceLe(a, c) {
      if SourceTier(a) == SourceTier(b) == SourceTier(c) {
        StringLeTransitive(a.sourceRef, b.sourceRef, c.sourceRef);
      }
    }
  }

  /** Where Python's `items[:stop]` stops: a negative stop counts from the end. */
  function SliceStop(stop: int, length: nat): (end: nat)
    ensures end <= length
    ensures stop >= length ==> end == length
    ensures stop + length <= 0 ==> end == 0
  {
    if stop >= 0 then (if stop <= length then stop else length)
    else if length + stop >= 0 then length + stop else 0
  }

  // ---------------------------------------------------------------------
  // Slots and packing
  // ---------------------------------------------------------------------

  function EstimatedTokens(source: SourceDocument): nat {
    match source.snippet
    case None => ITEM_OVERHEAD_TOKENS
    case Some(text) => ITEM_OVERHEAD_TOKENS + |text|
  }

  function SlotItemOf(source: SourceDocument): SlotItem {
    SlotItem(source.sourceRef, EstimatedTokens(source), false)
  }

  /** One slot a source, critical exactly for tier 0. */
  function SlotOf(source: SourceDocument, maxManifestTokens: int): Slot {
    Slot(source.sourceRef, SourceTier(source), maxManifestTokens, [SlotItemOf(source)], SourceTier(source) == 0)
  }

  function SlotsOf(selected: seq<SourceDocument>, maxManifestTokens: int): seq<Slot> {
    seq(|selected|, i requires 0 <= i < |selected| => SlotOf(selected[i], maxManifestTokens))
  }

  function RefIn(refs: seq<string>): SourceDocument -> bool {
    (source: SourceDocument) => source.sourceRef in refs
  }

  function SourceRefs(sources: seq<SourceDocument>): seq<string> {
    seq(|sources|, i requires 0 <= i < |sources| => sources[i].sourceRef)
  }

  function TrustLabels(sources: seq<SourceDocument>): seq<string> {
    seq(|sources|, i requires 0 <= i < |sources| => sources[i].trustLabel)
  }

  function Decisions(selected: seq<SourceDocument>, fittedRefs: seq<string>): seq<SelectionDecision> {
    seq(|selected|, i requires 0 <= i < |selected| =>
      SelectionDecision(selected[i].sourceRef, selected[i].sourceRef in fittedRefs))
  }

  function Sections(fitted: seq<SlotOutcome>): seq<ManifestSection> {
    if fitted == [] then []
    else
      var earlier, last := Sections(fitted[..|fitted| - 1]), fitted[|fitted| - 1];
      if last.kept == [] then earlier else earlier + [ManifestSection(last.slotRef, last.kept, last.tokens)]
  }

  /**
   * The evidence pack's items. No source carries an observation time here, so under a freshness
   * limit every one of them counts as stale and the pack is empty.
   */
  function EvidenceItems(fitted: seq<SourceDocument>, maxFreshnessSeconds: Option<nat>): seq<SourceDocument> {
    if maxFreshnessSeconds == None then fitted else []
  }

  // ---------------------------------------------------------------------
  // The builder
  // ---------------------------------------------------------------------

  /** The builder's settings; `build` itself changes none of them. */
  datatype Settings = Settings(
    sources: seq<SourceDocument>, principalScopes: seq<string>, maxSnippets: int,
    maxManifestTokens: int, criticalReserveTokens: int, maxFreshnessSeconds: Option<nat>)
  {
    function Allowed(): seq<SourceDocument> {
      Sorted(Filtered(sources, source => Authorised(source, principalScopes)), SourceLe)
    }

    function Selected(): seq<SourceDocument> {
      Allowed()[..SliceStop(maxSnippets, |Allowed()|)]
    }

    function BudgetLimits(): Limits {
      Limits(criticalReserveTokens, DEFAULT_BASE_OVERHEAD_TOKENS)
    }

    function Budgeted(): BudgetResult {
      BudgetLimits().Result(SlotsOf(Selected(), maxManifestTokens), maxManifestTokens)
    }

    /** The sources that fit. */
    function Fitted(): seq<SourceDocument> {
      Filtered(Selected(), RefIn(KeptRefs(Budgeted().fitted)))
    }

    function Outcome(): Result<ContextManifest, BuildError> {
      if criticalReserveTokens < 0 then Err(NegativeReserve)
      else
        match Budgeted().failure
        case Some(reason) => Err(BudgetRejected(reason))
        case None =>
          var pack, result := EvidenceItems(Fitted(), maxFreshnessSeconds), Budgeted();
          Ok(ContextManifest(
               Sections(result.fitted), SourceRefs(pack), result.budgetBefore, result.budgetAfter,
               Decisions(Selected(), KeptRefs(result.fitted)), result.omissions, TrustLabels(Fitted())))
    }
  }

  class ContextBuilder {
    const settings: Settings
    var lastEvidencePack: Option<seq<SourceDocument>>

    constructor (settings: Settings)
      ensures this.settings == settings && lastEvidencePack == None
    {
      this.settings := settings;
      lastEvidencePack := None;
    }

    /** A rejected build leaves the last evidence pack as it was. */
    method Build() returns (result: Result<ContextManifest, BuildError>)
      modifies this`lastEvidencePack
      ensures result == settings.Outcome()
      ensures lastEvidencePack ==
              if result.Ok? then Some(EvidenceItems(settings.Fitted(), settings.maxFreshnessSeconds))
              else old(lastEvidencePack)
    {
      hide Filtered, Sorted, SlotsOf, KeptRefs, Sections, Decisions;
      var allowed := Sorted(Filtered(settings.sources, source => Authorised(source, settings.principalScopes)), SourceLe);
      var selected := allowed[..SliceStop(settings.maxSnippets, |allowed|)];
      if settings.criticalReserveTokens < 0 {
        return Err(NegativeReserve);
      }
      var budgeter := new TokenBudgeter(settings.criticalReserveTokens, DEFAULT_BASE_OVERHEAD_TOKENS);
      var slots := SlotsOf(selected, settings.maxManifestTokens);
      var budgetResult := budgeter.Budget(slots, settings.maxManifestTokens);
      if budgetResult.failure.Some? {
        return Err(BudgetRejected(budgetResult.failure.value));
      }
      var fittedRefs := KeptRefs(budgetResult.fitted);
      var fitted := Filtered(selected, RefIn(fittedRefs));
      var evidencePack := EvidenceItems(fitted, settings.maxFreshnessSeconds);
      lastEvidencePack := Some(evidencePack);
      return Ok(ContextManifest(
                  Sections(budgetResult.fitted), SourceRefs(evidencePack), budgetResult.budgetBefore,
                  budgetResult.budgetAfter, Decisions(selected, fittedRefs), budgetResult.omissions,
                  TrustLabels(fitted)));
    }
  }

  // ---------------------------------------------------------------------
  // What is selected
  // ---------------------------------------------------------------------

  predicate OtherRef(a: SourceDocument, b: SourceDocument) {
    a.sourceRef != b.sourceRef
  }

  ghost predicate DistinctSourceRefs(sources: seq<SourceDocument>) {
    IsSorted(sources, OtherRef)
  }

  lemma {:induction false} FilteredMembers(sources: seq<SourceDocument>, keep: SourceDocument -> bool)
    ensures forall source :: source in Filtered(sources, keep) <==> source in sources && keep(source)
  {
    if sources != [] {
      var init, last := sources[..|sources| - 1], sources[|sources| - 1];
      FilteredMembers(init, keep);
      assert sources == init + [last];
    }
  }

  /** Filtering keeps any pairwise relation between earlier and later elements. */
  lemma {:induction false} FilteredPairs(sources: seq<SourceDocument>, keep: SourceDocument -> bool,
                                         related: (SourceDocument, SourceDocument) -> bool)
    requires IsSorted(sources, related)
    ensures IsSorted(Filtered(sources, keep), related)
  {
    if sources != [] {
      var init, last := sources[..|sources| - 1], sources[|sources| - 1];
      FilteredPairs(init, keep, related);
      FilteredMembers(init, keep);
      forall s <- Filtered(init, keep) ensures related(s, last) {
        var i :| 0 <= i < |init| && init[i] == s;
        assert related(sources[i], sources[|sources| - 1]);
      }
    }
  }

  /** The allowed sources are the authorised ones, in (tier, ref) order. */
  lemma AllowedShape(settings: Settings)
    ensures forall s <- settings.Allowed() :: s in settings.sources && Authorised(s, settings.principalScopes)
    ensures forall s <- settings.sources | Authorised(s, settings.principalScopes) :: s in settings.Allowed()
    ensures IsSorted(settings.Allowed(), SourceLe)
  {
    var keep := source => Authorised(source, settings.principalScopes);
    var filtered := Filtered(settings.sources, keep);
    SourceOrder();
    SortedSorts(filtered, SourceLe);
    FilteredMembers(settings.sources, keep);
    forall s ensures s in Sorted(filtered, SourceLe) <==> s in filtered {
      assert s in Sorted(filtered, SourceLe) <==> s in multiset(filtered);
    }
  }

  /** Sources with distinct refs are still distinct once filtered and sorted. */
  lemma AllowedDistinct(settings: Settings)
    requires DistinctSourceRefs(settings.sources)
    ensures DistinctSourceRefs(settings.Allowed()) && DistinctSourceRefs(settings.Selected())
  {
    var keep := source => Authorised(source, settings.principalScopes);
    var filtered := Filtered(settings.sources, keep);
    SourceOrder();
    SortedSorts(filtered, SourceLe);
    FilteredPairs(settings.sources, keep, OtherRef);
    hide Filtered, Sorted;
    PairwisePermuted(filtered, Sorted(filtered, SourceLe), OtherRef);
  }

  // ---------------------------------------------------------------------
  // Documents that share a ref
  // ---------------------------------------------------------------------

  /** The first document of each ref. */
  function Firsts(sources: seq<SourceDocument>): seq<SourceDocument> {
    if sources == [] then []
    else
      var init, last := sources[..|sources| - 1], sources[|sources| - 1];
      if last.sourceRef in SourceRefs(init) then Firsts(init) else Firsts(init) + [last]
  }

  /** The documents whose ref an earlier one already has. */
  function Repeated(sources: seq<SourceDocument>): seq<SourceDocument> {
    if sources == [] then []
    else
      var init, last := sources[..|sources| - 1], sources[|sources| - 1];
      if last.sourceRef in SourceRefs(init) then Repeated(init) + [last] else Repeated(init)
  }

  lemma SourceRefsSnoc(sources: seq<SourceDocument>, last: SourceDocument)
    ensures SourceRefs(sources + [last]) == SourceRefs(sources) + [last.sourceRef]
  {
  }

  lemma {:induction false} FirstsShape(sources: seq<SourceDocument>)
    ensures forall ref :: ref in SourceRefs(Firsts(sources)) <==> ref in SourceRefs(sources)
    ensures forall s <- Firsts(sources) :: s in sources
    ensures DistinctSourceRefs(Firsts(sources))
  {
    if sources != [] {
      var init, last := sources[..|sources| - 1], sources[|sources| - 1];
      FirstsShape(init);
      SourceRefsSnoc(init, last);
      SourceRefsSnoc(Firsts(init), last);
      assert sources == init + [last];
      var firsts := Firsts(init);
      assert forall i | 0 <= i < |firsts| :: firsts[i].sourceRef == SourceRefs(firsts)[i];
    }
  }

  lemma {:induction false} FirstsPairs(sources: seq<SourceDocument>, related: (SourceDocument, SourceDocument) -> bool)
    requires IsSorted(sources, related)
    ensures IsSorted(Firsts(sources), related)
  {
    if sources != [] {
      var init, last := sources[..|sources| - 1], sources[|sources| - 1];
      FirstsPairs(init, related);
      FirstsShape(init);
      forall s <- Firsts(init) ensures related(s, last) {
        var i :| 0 <= i < |init| && init[i] == s;
        assert related(sources[i], sources[|sources| - 1]);
      }
    }
  }

  /** No document repeats a ref exactly when all refs differ; repeated documents always hold tokens. */
  lemma {:induction false} RepeatedNoneExactly(sources: seq<SourceDocument>)
    ensures Repeated(sources) == [] <==> DistinctSourceRefs(sources)
    ensures PackedTokens(Repeated(sources)) == 0 <==> DistinctSourceRefs(sources)
    ensures DistinctSourceRefs(sources) ==> Firsts(sources) == sources
  {
    if sources != [] {
      var init, last := sources[..|sources| - 1], sources[|sources| - 1];
      RepeatedNoneExactly(init);
      PackedSnoc(Repeated(init), last);
      assert sources == init + [last];
      assert DistinctSourceRefs(sources) <==> DistinctSourceRefs(init) && last.sourceRef !in SourceRefs(init) by {
        DistinctSnoc(init, last);
      }
    }
  }

  lemma DistinctSnoc(init: seq<SourceDocument>, last: SourceDocument)
    ensures DistinctSourceRefs(init + [last]) <==> DistinctSourceRefs(init) && last.sourceRef !in SourceRefs(init)
  {
    var sources, refs := init + [last], SourceRefs(init);
    if DistinctSourceRefs(sources) {
      forall i, j | 0 <= i < j < |init| ensures OtherRef(init[i], init[j]) {
        assert OtherRef(sources[i], sources[j]);
      }
      forall i | 0 <= i < |refs| ensures refs[i] != last.sourceRef {
        assert OtherRef(sources[i], sources[|init|]);
      }
    }
    if DistinctSourceRefs(init) && last.sourceRef !in refs {
      assert forall i | 0 <= i < |init| :: refs[i] == init[i].sourceRef;
    }
  }

  // ---------------------------------------------------------------------
  // What the budgeter makes of one slot a source
  // ---------------------------------------------------------------------

  /** Slots of one item each, whose refs are new and different. */
  ghost predicate SingleItems(slots: seq<Slot>, seen: set<string>) {
    && (forall slot <- slots :: |slot.items| == 1 && slot.items[0].ref !in seen && !slot.items[0].criticalNegation)
    && (forall i, j | 0 <= i < j < |slots| :: slots[i].items[0].ref != slots[j].items[0].ref)
  }

  lemma {:induction false} SingleItemsAreDeduped(slots: seq<Slot>, seen: set<string>)
    requires SingleItems(slots, seen)
    ensures Deduped(slots, seen) == slots
  {
    if slots != [] {
      var slot := slots[0];
      assert Refs(slot.items) == {slot.items[0].ref};
      assert FreshItems(slot.items, seen) == slot.items by {
        assert slot.items[1..] == [];
        assert slot.items == [slot.items[0]];
      }
      SingleItemsAreDeduped(slots[1..], seen + Refs(slot.items));
      assert slot.(items := slot.items) == slot;
      assert slots == [slot] + slots[1..];
    }
  }

  /** Selected sources reach the budgeter already sorted and without duplicates. */
  lemma SelectedAreOrdered(selected: seq<SourceDocument>, maxManifestTokens: int)
    requires IsSorted(selected, SourceLe) && DistinctSourceRefs(selected)
    ensures SingleItems(SlotsOf(selected, maxManifestTokens), {})
    ensures OrderSlots(SlotsOf(selected, maxManifestTokens)) == SlotsOf(selected, maxManifestTokens)
  {
    var slots := SlotsOf(selected, maxManifestTokens);
    SlotOrder();
    SlotsAreSorted(selected, maxManifestTokens);
    SortedFixpoint(slots, SlotLe);
    SingleItemsAreDeduped(slots, {});
  }

  lemma {:induction false} DedupedSnoc(slots: seq<Slot>, last: Slot, seen: set<string>)
    requires |last.items| == 1
    ensures Deduped(slots + [last], seen) ==
            if last.items[0].ref in seen + AllRefs(slots) then Deduped(slots, seen) else Deduped(slots, seen) + [last]
  {
    hide FreshItems, Refs, AllRefs;
    if slots == [] {
      LastDeduped(last, seen);
      assert slots + [last] == [last];
    } else {
      assert (slots + [last])[1..] == slots[1..] + [last];
      DedupedSnoc(slots[1..], last, seen + Refs(slots[0].items));
      AllRefsCons(slots);
      assert seen + Refs(slots[0].items) + AllRefs(slots[1..]) == seen + AllRefs(slots);
    }
  }

  lemma LastDeduped(last: Slot, seen: set<string>)
    requires |last.items| == 1
    ensures Deduped([last], seen) == if last.items[0].ref in seen then [] else [last]
    ensures AllRefs([]) == {} && Deduped([], seen) == []
  {
    assert last.items[1..] == [] && last.items == [last.items[0]];
    assert FreshItems([], seen) == [] && FreshItems([], seen + {last.items[0].ref}) == [];
    assert [last][1..] == [] && last.(items := last.items) == last;
    assert Deduped([last][1..], seen + Refs(last.items)) == [];
    assert [last] + [] == [last];
    if last.items[0].ref in seen {
      assert FreshItems(last.items, seen) == [];
    } else {
      assert FreshItems(last.items, seen) == last.items;
    }
  }

  /** The refs of the slots are the refs of the sources. */
  lemma SlotRefs(sources: seq<SourceDocument>, maxManifestTokens: int, ref: string)
    ensures ref in AllRefs(SlotsOf(sources, maxManifestTokens)) <==> ref in SourceRefs(sources)
  {
    var slots := SlotsOf(sources, maxManifestTokens);
    if ref in AllRefs(slots) {
      var slot, item :| slot in slots && item in slot.items && item.ref == ref;
      var i :| 0 <= i < |slots| && slots[i] == slot;
      assert SourceRefs(sources)[i] == ref;
    }
    if ref in SourceRefs(sources) {
      var i :| 0 <= i < |sources| && SourceRefs(sources)[i] == ref;
      assert slots[i] in slots && SlotItemOf(sources[i]) in slots[i].items;
    }
  }

  lemma SlotsSnoc(sources: seq<SourceDocument>, last: SourceDocument, maxManifestTokens: int)
    ensures SlotsOf(sources + [last], maxManifestTokens) == SlotsOf(sources, maxManifestTokens) + [SlotOf(last, maxManifestTokens)]
  {
  }

  /** Deduplication leaves the slot of the first document of each ref. */
  lemma {:induction false} FirstsAreDeduped(sources: seq<SourceDocument>, maxManifestTokens: int)
    ensures Deduped(SlotsOf(sources, maxManifestTokens), {}) == SlotsOf(Firsts(sources), maxManifestTokens)
  {
    if sources != [] {
      var init, last := sources[..|sources| - 1], sources[|sources| - 1];
      FirstsAreDeduped(init, maxManifestTokens);
      SlotsSnoc(init, last, maxManifestTokens);
      SlotsSnoc(Firsts(init), last, maxManifestTokens);
      assert sources == init + [last];
      SlotRefs(init, maxManifestTokens, last.sourceRef);
      hide SlotsOf, Deduped, AllRefs;
      DedupedSnoc(SlotsOf(init, maxManifestTokens), SlotOf(last, maxManifestTokens), {});
      assert {} + AllRefs(SlotsOf(init, maxManifestTokens)) == AllRefs(SlotsOf(init, maxManifestTokens));
    }
  }

  /** Whatever the refs, the budgeter sees the first documents only. */
  lemma OrderedAreFirsts(selected: seq<SourceDocument>, maxManifestTokens: int)
    requires IsSorted(selected, SourceLe)
    ensures OrderSlots(SlotsOf(selected, maxManifestTokens)) == SlotsOf(Firsts(selected), maxManifestTokens)
    ensures OrderSlots(SlotsOf(Firsts(selected), maxManifestTokens)) == SlotsOf(Firsts(selected), maxManifestTokens)
    ensures IsSorted(Firsts(selected), SourceLe) && DistinctSourceRefs(Firsts(selected))
  {
    SlotsAreSorted(selected, maxManifestTokens);
    SlotOrder();
    SortedFixpoint(SlotsOf(selected, maxManifestTokens), SlotLe);
    FirstsAreDeduped(selected, maxManifestTokens);
    FirstsShape(selected);
    FirstsPairs(selected, SourceLe);
    hide IsSorted, SlotsOf, Sorted, Deduped, KeyOrder;
    SelectedAreOrdered(Firsts(selected), maxManifestTokens);
  }

  lemma SlotsAreSorted(selected: seq<SourceDocument>, maxManifestTokens: int)
    requires IsSorted(selected, SourceLe)
    ensures IsSorted(SlotsOf(selected, maxManifestTokens), SlotLe)
  {
    var slots := SlotsOf(selected, maxManifestTokens);
    forall i, j | 0 <= i < j < |slots| ensures SlotLe(slots[i], slots[j]) {
      assert SourceLe(selected[i], selected[j]);
    }
  }

  lemma WholeOrNothing(slot: Slot, used: int, available: int)
    requires |slot.items| == 1 && !slot.items[0].criticalNegation
    ensures var fit := WholeFit(slot, used, available);
            !fit.blocked && (fit.kept == [] || fit.kept == slot.items)
  {
    assert FitSlot(slot, 0, used, available) == SlotFit(false, [], []);
    assert [] + [slot.items[0]] == slot.items;
  }

  /** Each source is taken whole or left out. */
  ghost predicate TakenWhole(slots: seq<Slot>, fits: seq<SlotFit>) {
    |fits| <= |slots| && forall i | 0 <= i < |fits| :: fits[i].kept == [] || fits[i].kept == slots[i].items
  }

  /** Without critical negations a fit is never blocked. */
  lemma {:induction false} SingleItemsFit(slots: seq<Slot>, count: nat, available: int)
    requires count <= |slots| && SingleItems(slots, {})
    ensures !FitSlots(slots, count, available).blocked
    ensures TakenWhole(slots, FitSlots(slots, count, available).fits)
  {
    hide WholeFit;
    if count > 0 {
      SingleItemsFit(slots, count - 1, available);
      FitSlotsShape(slots, count - 1, available);
      WholeOrNothing(slots[count - 1], FitSlots(slots, count - 1, available).used, available);
    }
  }

  function PackedTokens(sources: seq<SourceDocument>): nat {
    if sources == [] then 0
    else PackedTokens(sources[..|sources| - 1]) + EstimatedTokens(sources[|sources| - 1])
  }

  lemma PackedSnoc(sources: seq<SourceDocument>, source: SourceDocument)
    ensures PackedTokens(sources + [source]) == PackedTokens(sources) + EstimatedTokens(source)
  {
    assert (sources + [source])[..|sources|] == sources;
  }

  lemma {:induction false} KeptMembers(fits: seq<SlotFit>, item: SlotItem)
    ensures item in Kept(fits) <==> exists i | 0 <= i < |fits| :: item in fits[i].kept
  {
    if fits != [] {
      var init := fits[..|fits| - 1];
      KeptMembers(init, item);
      if item in Kept(init) {
        var i :| 0 <= i < |init| && item in init[i].kept;
        assert item in fits[i].kept;
      }
      if i :| 0 <= i < |fits| && item in fits[i].kept {
        assert i == |init| || item in init[i].kept;
      }
    }
  }

  /** A source's ref is among the kept ones exactly when its own slot was taken. */
  lemma KeptExactly(selected: seq<SourceDocument>, maxManifestTokens: int, fits: seq<SlotFit>, i: nat)
    requires DistinctSourceRefs(selected) && i < |selected| == |fits|
    requires TakenWhole(SlotsOf(selected, maxManifestTokens), fits)
    ensures selected[i].sourceRef in ItemRefs(Kept(fits)) <==> fits[i].kept != []
  {
    var slots, kept := SlotsOf(selected, maxManifestTokens), Kept(fits);
    if fits[i].kept != [] {
      assert SlotItemOf(selected[i]) in fits[i].kept;
      KeptMembers(fits, SlotItemOf(selected[i]));
      RefListed(kept, SlotItemOf(selected[i]));
    }
    if selected[i].sourceRef in ItemRefs(kept) {
      var k :| 0 <= k < |kept| && kept[k].ref == selected[i].sourceRef;
      KeptMembers(fits, kept[k]);
      var j :| 0 <= j < |fits| && kept[k] in fits[j].kept;
      assert fits[j].kept == slots[j].items == [SlotItemOf(selected[j])];
      assert i == j;
    }
  }

  lemma ItemTokens(source: SourceDocument)
    ensures Tokens([SlotItemOf(source)]) == EstimatedTokens(source) && Tokens([]) == 0
  {
  }

  lemma NothingPacked(keep: SourceDocument -> bool)
    ensures Tokens(Kept([])) == PackedTokens(Filtered([], keep))
  {
  }

  /** The packed sources hold exactly the tokens the budgeter counted. */
  lemma {:induction false} PackedAreCounted(selected: seq<SourceDocument>, maxManifestTokens: int,
                                            fits: seq<SlotFit>, count: nat)
    requires DistinctSourceRefs(selected) && count <= |selected| == |fits|
    requires TakenWhole(SlotsOf(selected, maxManifestTokens), fits)
    ensures Tokens(Kept(fits[..count])) == PackedTokens(Filtered(selected[..count], RefIn(ItemRefs(Kept(fits)))))
  {
    hide ItemRefs, DistinctSourceRefs, Filtered, Kept, PackedTokens, Tokens;
    var keep := RefIn(ItemRefs(Kept(fits)));
    if count == 0 {
      NothingPacked(keep);
      assert fits[..0] == [] && selected[..0] == [];
    } else {
      PackedAreCounted(selected, maxManifestTokens, fits, count - 1);
      var source, fit := selected[count - 1], fits[count - 1];
      KeptExactly(selected, maxManifestTokens, fits, count - 1);
      assert selected[..count] == selected[..count - 1] + [source];
      assert fits[..count] == fits[..count - 1] + [fit];
      FilteredSnoc(selected[..count - 1], keep, source);
      KeptSnoc(fits[..count - 1], fit);
      TokensConcat(Kept(fits[..count - 1]), fit.kept);
      PackedSnoc(Filtered(selected[..count - 1], keep), source);
      ItemTokens(source);
      assert fit.kept == [] || fit.kept == [SlotItemOf(source)];
    }
  }

  lemma FilteredSnoc(sources: seq<SourceDocument>, keep: SourceDocument -> bool, last: SourceDocument)
    ensures Filtered(sources + [last], keep) ==
            if keep(last) then Filtered(sources, keep) + [last] else Filtered(sources, keep)
  {
    assert (sources + [last])[..|sources|] == sources;
  }

  function TierZero(): SourceDocument -> bool {
    (source: SourceDocument) => SourceTier(source) == 0
  }

  lemma {:induction false} CriticalAreTierZero(selected: seq<SourceDocument>, maxManifestTokens: int)
    ensures TokensOf(SlotsOf(selected, maxManifestTokens), CriticalSlot()) == PackedTokens(Filtered(selected, TierZero()))
  {
    var slots := SlotsOf(selected, maxManifestTokens);
    if selected != [] {
      var init, last := selected[..|selected| - 1], selected[|selected| - 1];
      CriticalAreTierZero(init, maxManifestTokens);
      assert slots[..|slots| - 1] == SlotsOf(init, maxManifestTokens);
      TokensSnoc(slots, CriticalSlot());
      PackedSnoc(Filtered(init, TierZero()), last);
      assert Tokens([SlotItemOf(last)]) == EstimatedTokens(last);
    }
  }

  // ---------------------------------------------------------------------
  // The main results
  // ---------------------------------------------------------------------

  /** What `Budgeted` is, on the first document of each ref. */
  lemma BudgetedFirsts(settings: Settings)
    ensures var firsts := Firsts(settings.Selected());
            && IsSorted(settings.Selected(), SourceLe)
            && IsSorted(firsts, SourceLe) && DistinctSourceRefs(firsts)
            && settings.Budgeted() ==
               settings.BudgetLimits().Result(SlotsOf(firsts, settings.maxManifestTokens), settings.maxManifestTokens)
  {
    hide SlotsOf, Sorted, Filtered, OrderSlots, DistinctSourceRefs, Firsts, TokensOf, FitSlots, Outcomes;
    AllowedShape(settings);
    assert IsSorted(settings.Selected(), SourceLe);
    hide IsSorted;
    OrderedAreFirsts(settings.Selected(), settings.maxManifestTokens);
  }

  /** A build is rejected exactly when the selected tier 0 sources, each ref once, do not fit on their own. */
  lemma RejectedExactly(settings: Settings)
    requires settings.criticalReserveTokens >= 0
    ensures settings.Outcome().Err? <==>
            PackedTokens(Filtered(Firsts(settings.Selected()), TierZero())) + DEFAULT_BASE_OVERHEAD_TOKENS
              > settings.maxManifestTokens - settings.criticalReserveTokens
  {
    hide Sorted, Filtered, FitSlots, TokensOf, PackedTokens, SlotsOf, OrderSlots, DistinctSourceRefs, IsSorted, Firsts;
    BudgetedFirsts(settings);
    var firsts := Firsts(settings.Selected());
    var slots := SlotsOf(firsts, settings.maxManifestTokens);
    SelectedAreOrdered(firsts, settings.maxManifestTokens);
    CriticalAreTierZero(firsts, settings.maxManifestTokens);
    SingleItemsFit(slots, |slots|, settings.BudgetLimits().Available(settings.maxManifestTokens));
  }

  /** Keeping by ref: what is kept is the kept first documents, and those that repeat their refs. */
  lemma {:induction false} KeptWithRepeats(sources: seq<SourceDocument>, refs: seq<string>)
    ensures PackedTokens(Filtered(sources, RefIn(refs))) ==
            PackedTokens(Filtered(Firsts(sources), RefIn(refs))) + PackedTokens(Repeated(Filtered(sources, RefIn(refs))))
  {
    if sources != [] {
      var keep, init, last := RefIn(refs), sources[..|sources| - 1], sources[|sources| - 1];
      KeptWithRepeats(init, refs);
      var kept := Filtered(init, keep);
      assert sources == init + [last];
      KeptRefsStay(init, refs, last.sourceRef);
      FilteredSnoc(init, keep, last);
      FilteredSnoc(Firsts(init), keep, last);
      RepeatedSnoc(kept, last);
      PackedSnoc(kept, last);
      PackedSnoc(Repeated(kept), last);
      PackedSnoc(Filtered(Firsts(init), keep), last);
      hide Filtered, PackedTokens, Repeated, SourceRefs;
    }
  }

  lemma RepeatedSnoc(sources: seq<SourceDocument>, last: SourceDocument)
    ensures Repeated(sources + [last]) ==
            if last.sourceRef in SourceRefs(sources) then Repeated(sources) + [last] else Repeated(sources)
  {
    assert (sources + [last])[..|sources|] == sources;
  }

  /** A ref that is kept is kept wherever it stands. */
  lemma KeptRefsStay(sources: seq<SourceDocument>, refs: seq<string>, ref: string)
    ensures ref in SourceRefs(Filtered(sources, RefIn(refs))) <==> ref in SourceRefs(sources) && ref in refs
  {
    var kept := Filtered(sources, RefIn(refs));
    FilteredMembers(sources, RefIn(refs));
    if ref in SourceRefs(kept) {
      var i :| 0 <= i < |kept| && SourceRefs(kept)[i] == ref;
      assert kept[i] in sources;
      var j :| 0 <= j < |sources| && sources[j] == kept[i];
      assert SourceRefs(sources)[j] == ref;
    }
    if ref in SourceRefs(sources) && ref in refs {
      var i :| 0 <= i < |sources| && SourceRefs(sources)[i] == ref;
      assert sources[i] in kept;
      var j :| 0 <= j < |kept| && kept[j] == sources[i];
      assert SourceRefs(kept)[j] == ref;
    }
  }

  /**
   * What is packed holds the tokens the budget counted, and on top those of every document that
   * repeats a ref: deduplication takes it out of the count, the ref puts it into the pack.
   */
  lemma PackedSurplus(settings: Settings)
    requires settings.Budgeted().failure == None
    ensures PackedTokens(settings.Fitted()) + DEFAULT_BASE_OVERHEAD_TOKENS
            == settings.Budgeted().budgetAfter + PackedTokens(Repeated(settings.Fitted()))
  {
    hide OrderSlots, NonNegative, TokensOf, FitSlots, Outcomes, SlotsOf, Filtered, IsSorted, DistinctSourceRefs;
    hide Sorted, Firsts, Repeated, PackedTokens, KeptRefs;
    BudgetedFirsts(settings);
    var firsts, limits := Firsts(settings.Selected()), settings.BudgetLimits();
    PackedAreUsed(firsts, limits, settings.maxManifestTokens);
    KeptWithRepeats(settings.Selected(), KeptRefs(settings.Budgeted().fitted));
  }

  /** The pack holds just what the manifest reports exactly when no two packed documents share a ref. */
  lemma PackedAsReportedExactly(settings: Settings)
    requires settings.Budgeted().failure == None
    ensures PackedTokens(settings.Fitted()) + DEFAULT_BASE_OVERHEAD_TOKENS == settings.Budgeted().budgetAfter
            <==> DistinctSourceRefs(settings.Fitted())
  {
    PackedSurplus(settings);
    hide DistinctSourceRefs, Repeated, PackedTokens, Filtered;
    RepeatedNoneExactly(settings.Fitted());
  }

  /** The pack stays inside the limit exactly when the repeated documents fit into what the budget left. */
  lemma PackedWithinLimitExactly(settings: Settings)
    requires settings.Budgeted().failure == None
    ensures var limit := settings.maxManifestTokens - settings.criticalReserveTokens;
            (PackedTokens(settings.Fitted()) + DEFAULT_BASE_OVERHEAD_TOKENS <= limit) <==>
            (PackedTokens(Repeated(settings.Fitted())) <= limit - settings.Budgeted().budgetAfter)
  {
    PackedSurplus(settings);
  }

  /** A greedy fit takes every source when all of them fit together. */
  lemma {:induction false} AllTaken(selected: seq<SourceDocument>, count: nat, available: int, maxManifestTokens: int)
    requires count <= |selected| && PackedTokens(selected) <= available <= maxManifestTokens
    ensures var slots := SlotsOf(selected, maxManifestTokens);
            var fit := FitSlots(slots, count, available);
            && !fit.blocked && |fit.fits| == count && fit.used == PackedTokens(selected[..count])
            && forall i | 0 <= i < count :: fit.fits[i].kept == slots[i].items
  {
    hide WholeFit, PackedTokens, Tokens;
    var slots := SlotsOf(selected, maxManifestTokens);
    if count == 0 {
      NoTokens();
      assert selected[..0] == [];
    } else {
      AllTaken(selected, count - 1, available, maxManifestTokens);
      var source := selected[count - 1];
      assert selected[..count] == selected[..count - 1] + [source];
      PackedSnoc(selected[..count - 1], source);
      PackedPrefix(selected, count);
      OneItemTaken(source, PackedTokens(selected[..count - 1]), available, maxManifestTokens);
    }
  }

  lemma NoTokens()
    ensures PackedTokens([]) == 0
  {
  }

  lemma {:induction false} PackedPrefix(sources: seq<SourceDocument>, count: nat)
    requires count <= |sources|
    ensures PackedTokens(sources[..count]) <= PackedTokens(sources)
    decreases |sources| - count
  {
    if count < |sources| {
      PackedPrefix(sources, count + 1);
      assert sources[..count + 1] == sources[..count] + [sources[count]];
      PackedSnoc(sources[..count], sources[count]);
    } else {
      assert sources[..count] == sources;
    }
  }

  lemma OneItemTaken(source: SourceDocument, used: nat, available: int, maxManifestTokens: int)
    requires used + EstimatedTokens(source) <= available <= maxManifestTokens
    ensures var slot := SlotOf(source, maxManifestTokens);
            WholeFit(slot, used, available) == SlotFit(false, slot.items, []) && Tokens(slot.items) == EstimatedTokens(source)
  {
    var slot := SlotOf(source, maxManifestTokens);
    assert FitSlot(slot, 0, used, available) == SlotFit(false, [], []);
    assert [] + [slot.items[0]] == slot.items;
    ItemTokens(source);
  }

  /** The first documents and those that repeat them are all of them. */
  lemma {:induction false} FirstsAndRepeated(sources: seq<SourceDocument>)
    ensures PackedTokens(sources) == PackedTokens(Firsts(sources)) + PackedTokens(Repeated(sources))
  {
    if sources != [] {
      var init, last := sources[..|sources| - 1], sources[|sources| - 1];
      FirstsAndRepeated(init);
      PackedSnoc(Firsts(init), last);
      PackedSnoc(Repeated(init), last);
    }
  }

  predicate FirstsFit(settings: Settings) {
    PackedTokens(Firsts(settings.Selected())) + DEFAULT_BASE_OVERHEAD_TOKENS
      <= settings.maxManifestTokens - settings.criticalReserveTokens
  }

  /** Everything selected is packed exactly when the first document of each ref fits together with the others. */
  lemma AllPackedExactly(settings: Settings)
    requires settings.criticalReserveTokens >= 0
    ensures settings.Budgeted().failure == None && settings.Fitted() == settings.Selected() <==> FirstsFit(settings)
  {
    if FirstsFit(settings) {
      FittingFirstsArePacked(settings);
    } else if settings.Budgeted().failure == None && settings.Fitted() == settings.Selected() {
      hide Firsts, Repeated, PackedTokens;
      PackedSurplus(settings);
      ReportedWithinLimit(settings);
      FirstsAndRepeated(settings.Selected());
    }
  }

  lemma FittingFirstsArePacked(settings: Settings)
    requires settings.criticalReserveTokens >= 0 && FirstsFit(settings)
    ensures settings.Budgeted().failure == None && settings.Fitted() == settings.Selected()
  {
    hide Firsts, PackedTokens, IsSorted, SlotsOf, OrderSlots, FitSlots, TokensOf, Filtered, Sorted, Outcomes, KeptRefs;
    hide DistinctSourceRefs, SingleItems, SourceRefs, ItemRefs, Kept;
    BudgetedFirsts(settings);
    var firsts, max := Firsts(settings.Selected()), settings.maxManifestTokens;
    var slots, available := SlotsOf(firsts, max), settings.BudgetLimits().Available(max);
    SlotsOfLength(firsts, max);
    SelectedAreOrdered(firsts, max);
    AllTaken(firsts, |firsts|, available, max);
    CriticalAreFewer(firsts, max);
    var fits := FitSlots(slots, |slots|, available).fits;
    KeptRefsOf(slots, fits);
    SuccessIsFit(settings.BudgetLimits(), slots, max);
    AllKept(settings.Selected(), max, fits);
  }

  lemma CriticalAreFewer(selected: seq<SourceDocument>, maxManifestTokens: int)
    ensures TokensOf(SlotsOf(selected, maxManifestTokens), CriticalSlot()) <= PackedTokens(selected)
  {
    CriticalAreTierZero(selected, maxManifestTokens);
    FilteredHoldFewer(selected, TierZero());
  }

  lemma {:induction false} FilteredHoldFewer(sources: seq<SourceDocument>, keep: SourceDocument -> bool)
    ensures PackedTokens(Filtered(sources, keep)) <= PackedTokens(sources)
  {
    if sources != [] {
      FilteredHoldFewer(sources[..|sources| - 1], keep);
      PackedSnoc(Filtered(sources[..|sources| - 1], keep), sources[|sources| - 1]);
    }
  }

  /** When the slot of every first document is taken, every document's ref is kept. */
  lemma AllKept(selected: seq<SourceDocument>, maxManifestTokens: int, fits: seq<SlotFit>)
    requires var slots := SlotsOf(Firsts(selected), maxManifestTokens);
             |fits| == |slots| && forall i | 0 <= i < |fits| :: fits[i].kept == slots[i].items
    ensures Filtered(selected, RefIn(ItemRefs(Kept(fits)))) == selected
  {
    var firsts, kept := Firsts(selected), ItemRefs(Kept(fits));
    FirstsShape(selected);
    forall source <- selected ensures source.sourceRef in kept {
      var k :| 0 <= k < |selected| && selected[k] == source;
      assert SourceRefs(selected)[k] in SourceRefs(firsts);
      var i :| 0 <= i < |firsts| && SourceRefs(firsts)[i] == source.sourceRef;
      KeptExactly(firsts, maxManifestTokens, fits, i);
    }
    hide Firsts, Kept;
    FilteredAll(selected, RefIn(kept));
  }

  lemma {:induction false} FilteredAll(sources: seq<SourceDocument>, keep: SourceDocument -> bool)
    requires forall source <- sources :: keep(source)
    ensures Filtered(sources, keep) == sources
  {
    if sources != [] {
      FilteredAll(sources[..|sources| - 1], keep);
      assert sources == sources[..|sources| - 1] + [sources[|sources| - 1]];
    }
  }

  /**
   * In terms of the selected documents: when the first documents fit together, the pack is as
   * reported exactly when the selected refs differ, and stays inside the limit exactly when all of
   * the selected documents fit into it.
   */
  lemma SelectedDecidesPack(settings: Settings)
    requires settings.criticalReserveTokens >= 0 && FirstsFit(settings)
    ensures settings.Budgeted().failure == None
    ensures var packed, limit := PackedTokens(settings.Fitted()) + DEFAULT_BASE_OVERHEAD_TOKENS,
                                 settings.maxManifestTokens - settings.criticalReserveTokens;
            && (packed == settings.Budgeted().budgetAfter <==> DistinctSourceRefs(settings.Selected()))
            && (packed <= limit <==> PackedTokens(settings.Selected()) + DEFAULT_BASE_OVERHEAD_TOKENS <= limit)
  {
    FittingFirstsArePacked(settings);
    PackedAsReportedExactly(settings);
  }

  /** The size the budget reports never passes the limit: only tier 0 sources are critical. */
  lemma ReportedWithinLimit(settings: Settings)
    requires settings.Budgeted().failure == None
    ensures settings.Budgeted().budgetAfter <= settings.maxManifestTokens - settings.criticalReserveTokens
  {
    hide OrderSlots, NonNegative, TokensOf, FitSlots, Outcomes, SlotsOf, Filtered;
    SlotsAreNonNegative(settings.Selected(), settings.maxManifestTokens);
    NoOverrunWhenOnlyTierZeroIsCritical(
      settings.BudgetLimits(), SlotsOf(settings.Selected(), settings.maxManifestTokens), settings.maxManifestTokens);
  }

  lemma SlotsAreNonNegative(selected: seq<SourceDocument>, maxManifestTokens: int)
    ensures NonNegative(SlotsOf(selected, maxManifestTokens))
    ensures forall slot <- SlotsOf(selected, maxManifestTokens) | slot.isCritical :: slot.tier == 0
  {
  }

  lemma PackedAreUsed(selected: seq<SourceDocument>, limits: Limits, maxManifestTokens: int)
    requires IsSorted(selected, SourceLe) && DistinctSourceRefs(selected)
    requires limits.Result(SlotsOf(selected, maxManifestTokens), maxManifestTokens).failure == None
    ensures var result := limits.Result(SlotsOf(selected, maxManifestTokens), maxManifestTokens);
            PackedTokens(Filtered(selected, RefIn(KeptRefs(result.fitted)))) + limits.baseOverheadTokens
              == result.budgetAfter
  {
    hide FitSlots, TokensOf, Splits, NoNegation, TakenWhole, Kept, Tokens, OrderSlots, SlotsOf, Outcomes;
    hide PackedTokens, Filtered, KeptRefs, ItemRefs, IsSorted, DistinctSourceRefs, SingleItems, Items;
    var slots, available := SlotsOf(selected, maxManifestTokens), limits.Available(maxManifestTokens);
    var fits := FitSlots(slots, |slots|, available).fits;
    SelectedAreOrdered(selected, maxManifestTokens);
    SuccessIsFit(limits, slots, maxManifestTokens);
    SingleItemsFit(slots, |slots|, available);
    FitSplits(slots, |slots|, available);
    KeptRefsOf(slots, fits);
    SlotsOfLength(selected, maxManifestTokens);
    PackedAreCounted(selected, maxManifestTokens, fits, |selected|);
    assert selected[..|selected|] == selected && fits[..|selected|] == fits;
  }

  lemma SlotsOfLength(selected: seq<SourceDocument>, maxManifestTokens: int)
    ensures |SlotsOf(selected, maxManifestTokens)| == |selected|
  {
  }

  /** Every selected tier 0 source is packed. */
  lemma SelectedTierZeroIsPacked(settings: Settings, source: SourceDocument)
    requires settings.Budgeted().failure == None
    requires source in settings.Selected() && SourceTier(source) == 0
    ensures source in settings.Fitted()
  {
    hide Sorted, Filtered, FitSlots, TokensOf, OrderSlots;
    var slots := SlotsOf(settings.Selected(), settings.maxManifestTokens);
    var i :| 0 <= i < |settings.Selected()| && settings.Selected()[i] == source;
    assert slots[i] == SlotOf(source, settings.maxManifestTokens) && SlotItemOf(source) in slots[i].items;
    TierZeroRefsAreKept(settings.BudgetLimits(), slots, settings.maxManifestTokens, slots[i], SlotItemOf(source));
    FilteredMembers(settings.Selected(), RefIn(KeptRefs(settings.Budgeted().fitted)));
  }

  lemma AheadOfTheRest(sorted: seq<SourceDocument>, stop: nat, a: SourceDocument, b: SourceDocument)
    requires IsSorted(sorted, SourceLe) && stop <= |sorted|
    requires a in sorted[..stop] && b in sorted && b !in sorted[..stop]
    ensures SourceLe(a, b)
  {
    assert sorted == sorted[..stop] + sorted[stop..];
    var i :| 0 <= i < stop && sorted[i] == a;
    var j :| 0 <= j < |sorted| - stop && sorted[stop..][j] == b;
    assert SourceLe(sorted[i], sorted[stop + j]);
  }

  /** If an authorised tier 0 source is left out, everything packed is tier 0. */
  lemma TierZeroComesFirst(settings: Settings, left: SourceDocument, packed: SourceDocument)
    requires settings.Budgeted().failure == None
    requires left in settings.sources && Authorised(left, settings.principalScopes) && SourceTier(left) == 0
    requires left !in settings.Fitted() && packed in settings.Fitted()
    ensures SourceTier(packed) == 0
  {
    hide Sorted, Filtered, IsSorted;
    AllowedShape(settings);
    FilteredMembers(settings.Selected(), RefIn(KeptRefs(settings.Budgeted().fitted)));
    if left in settings.Selected() {
      SelectedTierZeroIsPacked(settings, left);
    } else {
      AheadOfTheRest(settings.Allowed(), |settings.Selected()|, packed, left);
    }
  }

  /** The manifest of a successful build without a freshness limit, whatever the refs. */
  lemma BuildIsSafe(settings: Settings)
    requires settings.maxFreshnessSeconds == None && settings.Outcome().Ok?
    ensures var manifest, packed := settings.Outcome().value, settings.Fitted();
            && manifest.sourceRefs == SourceRefs(packed)
            && (forall s <- packed :: s in settings.sources && Authorised(s, settings.principalScopes))
            && IsSorted(packed, SourceLe)
            && PackedTokens(packed) + DEFAULT_BASE_OVERHEAD_TOKENS
               == manifest.budgetAfter + PackedTokens(Repeated(packed))
            && manifest.budgetAfter <= settings.maxManifestTokens - settings.criticalReserveTokens
            && (forall left <- settings.sources
                 | Authorised(left, settings.principalScopes) && SourceTier(left) == 0 && left !in packed ::
                 forall s <- packed :: SourceTier(s) == 0)
            && (DistinctSourceRefs(settings.sources) ==> DistinctSourceRefs(packed) && Repeated(packed) == [])
  {
    AllowedShape(settings);
    assert IsSorted(settings.Selected(), SourceLe);
    PackedSurplus(settings);
    ReportedWithinLimit(settings);
    hide Sorted, Filtered, PackedTokens, Repeated, IsSorted;
    var selected, keep := settings.Selected(), RefIn(KeptRefs(settings.Budgeted().fitted));
    FilteredMembers(selected, keep);
    FilteredPairs(selected, keep, SourceLe);
    var packed := settings.Fitted();
    if DistinctSourceRefs(settings.sources) {
      AllowedDistinct(settings);
      FilteredPairs(selected, keep, OtherRef);
      RepeatedNoneExactly(packed);
    }
    forall left <- settings.sources, s <- packed
      | Authorised(left, settings.principalScopes) && SourceTier(left) == 0 && left !in packed
      ensures SourceTier(s) == 0
    {
      TierZeroComesFirst(settings, left, s);
    }
  }

  /**
   * The refs must be distinct: the second document of one ref is deduplicated away before the
   * budget is counted, and is then packed with the first.
   */
  lemma DuplicateRefsOverrun()
    ensures var source := SourceDocument("s", "1", "d", ["p"], "high", None);
            var settings := Settings([source, source], ["p"], 8, 100, 0, None);
            && settings.Outcome().Ok?
            && PackedTokens(settings.Fitted()) + DEFAULT_BASE_OVERHEAD_TOKENS == 112
  {
    var source := SourceDocument("s", "1", "d", ["p"], "high", None);
    var settings := Settings([source, source], ["p"], 8, 100, 0, None);
    assert "p" in source.allowedScopes;
    DuplicatesAreSelected(settings);
    hide Filtered, Sorted, SlotsOf, TokensOf, FitSlots, Deduped, Outcomes, KeptRefs, OrderSlots;
    DuplicateBudget(source);
    FilteredPair(source, RefIn(["s"]));
    assert [source, source][..1] == [source] && [source][..0] == [];
    assert PackedTokens([source]) == 24;
  }

  lemma DuplicateBudget(source: SourceDocument)
    requires source == SourceDocument("s", "1", "d", ["p"], "high", None)
    ensures var result := Limits(0, 64).Result(SlotsOf([source, source], 100), 100);
            result.failure == None && KeptRefs(result.fitted) == ["s"]
  {
    hide Sorted, SlotsOf, TokensOf, FitSlots, Deduped, Outcomes, KeptRefs;
    var slot := SlotOf(source, 100);
    SlotsOfPair(source, 100);
    StringLeTotal("s", "s");
    SortedPair(slot, slot);
    DuplicateSlotDedupes(slot);
    DuplicateSlotFits(slot);
  }

  lemma SlotsOfPair(source: SourceDocument, maxManifestTokens: int)
    ensures SlotsOf([source, source], maxManifestTokens)
            == [SlotOf(source, maxManifestTokens), SlotOf(source, maxManifestTokens)]
  {
  }

  lemma DuplicatesAreSelected(settings: Settings)
    requires |settings.sources| == 2 && settings.sources[0] == settings.sources[1] && settings.maxSnippets == 8
    requires Authorised(settings.sources[0], settings.principalScopes)
    ensures settings.Selected() == settings.sources
  {
    var source := settings.sources[0];
    assert settings.sources == [source, source];
    FilteredPair(source, s => Authorised(s, settings.principalScopes));
    hide Filtered;
    SourceOrder();
    assert SourceLe(source, source);
    SortedFixpoint([source, source], SourceLe);
  }

  lemma FilteredPair(source: SourceDocument, keep: SourceDocument -> bool)
    requires keep(source)
    ensures Filtered([source, source], keep) == [source, source]
  {
    assert Filtered([], keep) == [];
    assert [source, source][..1] == [source] && [source][..0] == [];
    assert Filtered([source], keep) == [] + [source];
  }

  lemma DuplicateSlotDedupes(slot: Slot)
    requires slot == Slot("s", 1, 100, [SlotItem("s", 24, false)], false)
    ensures Deduped([slot, slot], {}) == [slot]
    ensures TokensOf([slot], CriticalSlot()) == 0
  {
    assert [slot, slot][1..] == [slot] && [slot][1..] == [] && slot.items[1..] == [];
    assert FreshItems(slot.items, {}) == slot.items && FreshItems(slot.items, {"s"}) == [];
    assert Refs(slot.items) == {"s"} == {} + {"s"} == {"s"} + {"s"};
    assert Deduped([slot], {"s"}) == [];
  }

  lemma DuplicateSlotFits(slot: Slot)
    requires slot == Slot("s", 1, 100, [SlotItem("s", 24, false)], false)
    ensures var fit := FitSlots([slot], 1, 36); !fit.blocked && |fit.fits| == 1 && KeptRefs(Outcomes([slot], fit.fits)) == ["s"]
  {
    assert FitSlot(slot, 0, 0, 36) == SlotFit(false, [], []);
    assert [] + [slot.items[0]] == slot.items;
    assert Tokens([]) == 0;
    var fit := WholeFit(slot, 0, 36);
    assert fit.kept == slot.items;
    assert FitSlots([slot], 0, 36) == Fit(false, [], 0);
    assert FitSlots([slot], 1, 36).fits == [] + [fit] == [fit];
    KeptRefsOf([slot], [fit]);
    assert [fit][..0] == [] && Kept([]) == [];
    assert Kept([fit]) == slot.items;
  }
}
