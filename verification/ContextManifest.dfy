/** What a built manifest says, in terms of labels, scopes, refs and tokens alone. */
module ContextManifest {
  import opened Common
  import opened Sorting
  import opened TokenBudgeter
  import opened BudgetLaws
  import opened ContextBuild

  // ---------------------------------------------------------------------
  // Labels decide what comes first and what is cut
  // ---------------------------------------------------------------------

  /** "tier0" before "high" before "medium" before every other label. */
  predicate Outranks(a: string, b: string) {
    || (a == "tier0" && b != "tier0")
    || (a == "high" && b != "tier0" && b != "high")
    || (a == "medium" && b != "tier0" && b != "high" && b != "medium")
  }

  lemma LabelsRank(a: SourceDocument, b: SourceDocument)
    ensures Outranks(a.trustLabel, b.trustLabel) <==> SourceTier(a) < SourceTier(b)
    ensures a.trustLabel == "tier0" <==> SourceTier(a) == 0
  {
    assert "tier0" != "high" && "tier0" != "medium" && "high" != "medium" by {
      assert "tier0"[0] == 't' && "high"[0] == 'h' && "medium"[0] == 'm';
    }
  }

  /** In the pack no document stands before one whose label outranks its own; within a rank refs decide. */
  lemma PackFollowsLabels(settings: Settings, i: nat, j: nat)
    requires i < j < |settings.Fitted()|
    ensures var a, b := settings.Fitted()[i], settings.Fitted()[j];
            !Outranks(b.trustLabel, a.trustLabel)
            && (!Outranks(a.trustLabel, b.trustLabel) ==> StringLe(a.sourceRef, b.sourceRef))
  {
    var packed := settings.Fitted();
    AllowedShape(settings);
    assert IsSorted(settings.Selected(), SourceLe);
    hide Sorted, Filtered;
    FilteredPairs(settings.Selected(), RefIn(KeptRefs(settings.Budgeted().fitted)), SourceLe);
    assert SourceLe(packed[i], packed[j]);
    hide *;
    LabelsDecide(packed[i], packed[j]);
  }

  lemma LabelsDecide(a: SourceDocument, b: SourceDocument)
    requires SourceLe(a, b)
    ensures !Outranks(b.trustLabel, a.trustLabel)
    ensures !Outranks(a.trustLabel, b.trustLabel) ==> StringLe(a.sourceRef, b.sourceRef)
  {
    hide Outranks, SourceTier;
    LabelsRank(a, b);
    LabelsRank(b, a);
  }

  /** Selected are authorised sources: as many as `maxSnippets` allows, negative counts taken off the end. */
  lemma SelectedExactly(settings: Settings)
    ensures var selected, n := settings.Selected(), |Filtered(settings.sources, s => Authorised(s, settings.principalScopes))|;
            && (forall s <- selected :: s in settings.sources && exists scope <- s.allowedScopes :: scope in settings.principalScopes)
            && (settings.maxSnippets >= n ==> |selected| == n)
            && (0 <= settings.maxSnippets <= n ==> |selected| == settings.maxSnippets)
            && (settings.maxSnippets < 0 && n + settings.maxSnippets >= 0 ==> |selected| == n + settings.maxSnippets)
            && (n + settings.maxSnippets < 0 ==> |selected| == 0)
  {
    AllowedShape(settings);
    SourceOrder();
    SortedSorts(Filtered(settings.sources, s => Authorised(s, settings.principalScopes)), SourceLe);
    hide Sorted, Filtered, SourceLe;
  }

  /** A source that any of the principal's scopes opens is left out by the cut only behind those it keeps. */
  lemma CutFollowsLabels(settings: Settings, left: SourceDocument, taken: SourceDocument, scope: string)
    requires left in settings.sources && scope in left.allowedScopes && scope in settings.principalScopes
    requires left !in settings.Selected() && taken in settings.Selected()
    ensures !Outranks(left.trustLabel, taken.trustLabel)
    ensures !Outranks(taken.trustLabel, left.trustLabel) ==> StringLe(taken.sourceRef, left.sourceRef)
  {
    hide Sorted, Filtered, IsSorted;
    AllowedShape(settings);
    assert Authorised(left, settings.principalScopes);
    AheadOfTheRest(settings.Allowed(), |settings.Selected()|, taken, left);
    hide *;
    LabelsDecide(taken, left);
  }

  // ---------------------------------------------------------------------
  // Sections, decisions and omissions
  // ---------------------------------------------------------------------

  /** The section of a packed source: its own ref, and its own tokens. */
  function SectionOf(source: SourceDocument): ManifestSection {
    ManifestSection(source.sourceRef, [source.sourceRef],
                    if source.snippet.Some? then ITEM_OVERHEAD_TOKENS + |source.snippet.value| else ITEM_OVERHEAD_TOKENS)
  }

  function SectionsOf(sources: seq<SourceDocument>): seq<ManifestSection> {
    seq(|sources|, i requires 0 <= i < |sources| => SectionOf(sources[i]))
  }

  lemma SectionsSnoc(fitted: seq<SlotOutcome>, last: SlotOutcome)
    ensures Sections(fitted + [last]) ==
            if last.kept == [] then Sections(fitted)
            else Sections(fitted) + [ManifestSection(last.slotRef, last.kept, last.tokens)]
  {
    assert (fitted + [last])[..|fitted|] == fitted;
  }

  lemma OutcomeIsSection(source: SourceDocument, maxManifestTokens: int, fit: SlotFit)
    requires fit.kept == [] || fit.kept == [SlotItemOf(source)]
    ensures var outcome := Outcome(SlotOf(source, maxManifestTokens), fit);
            && (outcome.kept == [] <==> fit.kept == [])
            && (fit.kept != [] ==>
                  ManifestSection(outcome.slotRef, outcome.kept, outcome.tokens) == SectionOf(source))
  {
    ItemTokens(source);
    assert fit.kept != [] ==> ItemRefs(fit.kept) == [source.sourceRef];
  }

  /** The sections are those of the sources whose slots were taken. */
  lemma {:induction false} SectionsAreTaken(firsts: seq<SourceDocument>, maxManifestTokens: int, fits: seq<SlotFit>,
                                            count: nat)
    requires DistinctSourceRefs(firsts) && count <= |firsts| == |fits|
    requires TakenWhole(SlotsOf(firsts, maxManifestTokens), fits)
    ensures Sections(Outcomes(SlotsOf(firsts, maxManifestTokens), fits)[..count]) ==
            SectionsOf(Filtered(firsts[..count], RefIn(ItemRefs(Kept(fits)))))
  {
    hide ItemRefs, DistinctSourceRefs, Filtered, Kept, Sections, Outcome;
    var keep, outcomes := RefIn(ItemRefs(Kept(fits))), Outcomes(SlotsOf(firsts, maxManifestTokens), fits);
    if count == 0 {
      NoSections(keep);
      assert outcomes[..0] == [] && firsts[..0] == [];
    } else {
      SectionsAreTaken(firsts, maxManifestTokens, fits, count - 1);
      var source, fit := firsts[count - 1], fits[count - 1];
      KeptExactly(firsts, maxManifestTokens, fits, count - 1);
      assert firsts[..count] == firsts[..count - 1] + [source];
      assert outcomes[..count] == outcomes[..count - 1] + [outcomes[count - 1]];
      FilteredSnoc(firsts[..count - 1], keep, source);
      SectionsSnoc(outcomes[..count - 1], outcomes[count - 1]);
      assert fit.kept == [] || fit.kept == [SlotItemOf(source)];
      OutcomeIsSection(source, maxManifestTokens, fit);
      SectionsOfSnoc(Filtered(firsts[..count - 1], keep), source);
    }
  }

  lemma SectionsOfSnoc(sources: seq<SourceDocument>, last: SourceDocument)
    ensures SectionsOf(sources + [last]) == SectionsOf(sources) + [SectionOf(last)]
  {
  }

  lemma NoSections(keep: SourceDocument -> bool)
    ensures Sections([]) == [] && SectionsOf(Filtered([], keep)) == []
  {
  }

  /** Filtering by ref and leaving out repeated refs do not disturb each other. */
  lemma {:induction false} FirstsFiltered(sources: seq<SourceDocument>, refs: seq<string>)
    ensures Filtered(Firsts(sources), RefIn(refs)) == Firsts(Filtered(sources, RefIn(refs)))
  {
    if sources != [] {
      var keep, init, last := RefIn(refs), sources[..|sources| - 1], sources[|sources| - 1];
      FirstsFiltered(init, refs);
      assert sources == init + [last];
      KeptRefsStay(init, refs, last.sourceRef);
      FilteredSnoc(init, keep, last);
      FilteredSnoc(Firsts(init), keep, last);
      FirstsSnoc(Filtered(init, keep), last);
      hide Filtered, SourceRefs;
    }
  }

  lemma FirstsSnoc(sources: seq<SourceDocument>, last: SourceDocument)
    ensures Firsts(sources + [last]) == if last.sourceRef in SourceRefs(sources) then Firsts(sources) else Firsts(sources) + [last]
  {
    assert (sources + [last])[..|sources|] == sources;
  }

  /** A manifest has one section for each packed ref, in pack order, with the tokens of its first document. */
  lemma SectionsExactly(settings: Settings)
    requires settings.Outcome().Ok?
    ensures settings.Outcome().value.sections == SectionsOf(Firsts(settings.Fitted()))
  {
    hide OrderSlots, TokensOf, FitSlots, Outcomes, SlotsOf, Filtered, IsSorted, DistinctSourceRefs, Splits, TakenWhole;
    hide Sorted, Firsts, KeptRefs, Sections, SectionsOf, Kept, ItemRefs, SingleItems, SourceRefs, TrustLabels, Decisions;
    BudgetedFirsts(settings);
    var firsts, max := Firsts(settings.Selected()), settings.maxManifestTokens;
    var slots, available := SlotsOf(firsts, max), settings.BudgetLimits().Available(max);
    var fits := FitSlots(slots, |slots|, available).fits;
    SelectedAreOrdered(firsts, max);
    SuccessIsFit(settings.BudgetLimits(), slots, max);
    SingleItemsFit(slots, |slots|, available);
    KeptRefsOf(slots, fits);
    SlotsOfLength(firsts, max);
    SectionsAreTaken(firsts, max, fits, |firsts|);
    OutcomesLength(slots, fits);
    assert firsts[..|firsts|] == firsts && Outcomes(slots, fits)[..|firsts|] == Outcomes(slots, fits);
    FirstsFiltered(settings.Selected(), KeptRefs(settings.Budgeted().fitted));
  }

  lemma OutcomesLength(slots: seq<Slot>, fits: seq<SlotFit>)
    requires |fits| <= |slots|
    ensures |Outcomes(slots, fits)| == |fits|
  {
  }

  /** Each selected source is reported in order, as selected exactly when it is packed; labels are the pack's. */
  lemma DecisionsExactly(settings: Settings)
    requires settings.Outcome().Ok?
    ensures var manifest, selected, packed := settings.Outcome().value, settings.Selected(), settings.Fitted();
            && |manifest.decisions| == |selected|
            && (forall i | 0 <= i < |selected| ::
                  manifest.decisions[i] == SelectionDecision(selected[i].sourceRef, selected[i] in packed))
            && |manifest.trustLabels| == |packed|
            && (forall i | 0 <= i < |packed| :: manifest.trustLabels[i] == packed[i].trustLabel)
            && |manifest.sourceRefs| == (if settings.maxFreshnessSeconds == None then |packed| else 0)
            && (forall i | 0 <= i < |manifest.sourceRefs| :: manifest.sourceRefs[i] == packed[i].sourceRef)
  {
    hide Filtered, KeptRefs, Sections, Sorted;
    FilteredMembers(settings.Selected(), RefIn(KeptRefs(settings.Budgeted().fitted)));
  }

  /** A ref is omitted exactly when it is selected and not packed, and no ref is omitted twice. */
  lemma OmissionsExactly(settings: Settings, ref: string)
    requires settings.Outcome().Ok?
    ensures multiset(settings.Outcome().value.omissions)[ref] ==
            if ref in SourceRefs(settings.Selected()) && ref !in SourceRefs(settings.Fitted()) then 1 else 0
  {
    hide Filtered, KeptRefs, Sections, Sorted, SourceRefs, AllRefs, SlotsOf, OrderSlots, FitSlots, TokensOf, Decisions;
    var slots := SlotsOf(settings.Selected(), settings.maxManifestTokens);
    KeptAndOmittedPartitionRefs(settings.BudgetLimits(), slots, settings.maxManifestTokens);
    SlotRefs(settings.Selected(), settings.maxManifestTokens, ref);
    var kept, result := KeptRefs(settings.Budgeted().fitted), settings.Budgeted();
    KeptRefsStay(settings.Selected(), kept, ref);
    assert multiset(kept)[ref] + multiset(result.omissions)[ref] == multiset(AllRefs(slots))[ref];
    assert ref in kept <==> ref in multiset(kept);
  }
}
