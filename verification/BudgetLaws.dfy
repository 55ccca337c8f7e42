/** What the token budgeter guarantees, for every list of slots and every limit. */
module BudgetLaws {
  import opened Common
  import opened Sorting
  import opened TokenBudgeter

  /** The refs kept in the fitted slots, in order. */
  function KeptRefs(fitted: seq<SlotOutcome>): seq<string> {
    if fitted == [] then [] else KeptRefs(fitted[..|fitted| - 1]) + fitted[|fitted| - 1].kept
  }

  /** All items of a list of slots, in order. */
  function Items(slots: seq<Slot>): seq<SlotItem> {
    if slots == [] then [] else slots[0].items + Items(slots[1..])
  }

  // ---------------------------------------------------------------------
  // Deduplication
  // ---------------------------------------------------------------------

  lemma {:induction false} FreshRefs(items: seq<SlotItem>, seen: set<string>)
    ensures multiset(ItemRefs(FreshItems(items, seen))) == multiset(Refs(items) - seen)
  {
    if items != [] {
      var ref, rest := items[0].ref, items[1..];
      assert items == [items[0]] + rest;
      assert Refs(items) == {ref} + Refs(rest);
      if ref in seen {
        FreshRefs(rest, seen);
        assert Refs(items) - seen == Refs(rest) - seen;
      } else {
        FreshRefs(rest, seen + {ref});
        ItemRefsConcat([items[0]], FreshItems(rest, seen + {ref}));
        assert ItemRefs([items[0]]) == [ref];
        assert Refs(items) - seen == {ref} + (Refs(rest) - (seen + {ref}));
      }
    }
  }

  lemma ItemRefsConcat(a: seq<SlotItem>, b: seq<SlotItem>)
    ensures ItemRefs(a + b) == ItemRefs(a) + ItemRefs(b)
  {
  }

  lemma AllRefsCons(slots: seq<Slot>)
    requires slots != []
    ensures AllRefs(slots) == Refs(slots[0].items) + AllRefs(slots[1..])
  {
    assert slots == [slots[0]] + slots[1..];
  }

  lemma DedupedItems(slots: seq<Slot>, seen: set<string>)
    requires slots != []
    ensures Items(Deduped(slots, seen)) ==
            FreshItems(slots[0].items, seen) + Items(Deduped(slots[1..], seen + Refs(slots[0].items)))
  {
    hide FreshItems, Refs, Items;
    var rest := Deduped(slots[1..], seen + Refs(slots[0].items));
    if FreshItems(slots[0].items, seen) == [] {
      assert [] + Items(rest) == Items(rest);
    } else {
      ItemsCons(slots[0].(items := FreshItems(slots[0].items, seen)), rest);
    }
  }

  lemma ItemsCons(slot: Slot, rest: seq<Slot>)
    ensures Items([slot] + rest) == slot.items + Items(rest)
  {
    assert ([slot] + rest)[1..] == rest;
  }

  lemma UnseenSplit(a: set<string>, b: set<string>, seen: set<string>)
    ensures multiset((a + b) - seen) == multiset(a - seen) + multiset(b - (seen + a))
  {
    assert (a + b) - seen == (a - seen) + (b - (seen + a));
  }

  /** Deduplication keeps every ref not seen before exactly once. */
  lemma {:induction false} DedupedRefs(slots: seq<Slot>, seen: set<string>)
    ensures multiset(ItemRefs(Items(Deduped(slots, seen)))) == multiset(AllRefs(slots) - seen)
  {
    hide FreshItems, Refs, ItemRefs, Items;
    if slots == [] {
      hide *;
      NoSlots(seen);
    } else {
      hide Deduped, AllRefs;
      var first, seenNext := slots[0].items, seen + Refs(slots[0].items);
      FreshRefs(first, seen);
      DedupedRefs(slots[1..], seenNext);
      AllRefsCons(slots);
      DedupedItems(slots, seen);
      ItemRefsConcat(FreshItems(first, seen), Items(Deduped(slots[1..], seenNext)));
      UnseenSplit(Refs(first), AllRefs(slots[1..]), seen);
    }
  }

  lemma NoSlots(seen: set<string>)
    ensures multiset(ItemRefs(Items(Deduped([], seen)))) == multiset(AllRefs([]) - seen)
  {
    assert Deduped([], seen) == [] && AllRefs([]) == {};
    assert ItemRefs([]) == [];
  }

  lemma SortingKeepsRefs(slots: seq<Slot>)
    ensures AllRefs(Sorted(slots, SlotLe)) == AllRefs(slots)
  {
    SlotOrder();
    SortedSorts(slots, SlotLe);
    assert forall slot :: slot in slots <==> slot in multiset(slots);
    assert forall slot :: slot in Sorted(slots, SlotLe) <==> slot in multiset(slots);
  }

  lemma SortedPair(a: Slot, b: Slot)
    requires SlotLe(a, b)
    ensures Sorted([a, b], SlotLe) == [a, b]
  {
    assert Sorted([b], SlotLe) == [b] by {
      assert Sorted([], SlotLe) == [];
    }
    assert [a, b][1..] == [b];
  }

  lemma DedupedPair(a: Slot, b: Slot)
    requires |a.items| == 1 && |b.items| == 1 && a.items[0].ref != b.items[0].ref
    ensures Deduped([a, b], {}) == [a, b]
  {
    assert [a, b][1..] == [b] && [b][1..] == [];
    assert FreshItems(a.items, {}) == a.items;
    assert Refs(a.items) == {a.items[0].ref} == {} + Refs(a.items);
    assert FreshItems(b.items, Refs(a.items)) == b.items;
    assert Deduped([], Refs(a.items) + Refs(b.items)) == [];
    assert Deduped([b], Refs(a.items)) == [b.(items := b.items)] + [];
    assert [b.(items := b.items)] == [b] && [a.(items := a.items)] == [a];
  }

  // ---------------------------------------------------------------------
  // The greedy fit
  // ---------------------------------------------------------------------

  /** Nothing is lost: what is kept and what is dropped are together the items, tokens included. */
  ghost predicate Splits(kept: seq<SlotItem>, dropped: seq<SlotItem>, items: seq<SlotItem>) {
    && multiset(kept) + multiset(dropped) == multiset(items)
    && Tokens(kept) + Tokens(dropped) == Tokens(items)
  }

  lemma SplitsConcat(kept: seq<SlotItem>, dropped: seq<SlotItem>, items: seq<SlotItem>,
                     moreKept: seq<SlotItem>, moreDropped: seq<SlotItem>, moreItems: seq<SlotItem>)
    requires Splits(kept, dropped, items) && Splits(moreKept, moreDropped, moreItems)
    ensures Splits(kept + moreKept, dropped + moreDropped, items + moreItems)
  {
    TokensConcat(kept, moreKept);
    TokensConcat(dropped, moreDropped);
    TokensConcat(items, moreItems);
  }

  lemma SplitsKeep(kept: seq<SlotItem>, dropped: seq<SlotItem>, items: seq<SlotItem>, item: SlotItem)
    requires Splits(kept, dropped, items)
    ensures Splits(kept + [item], dropped, items + [item])
    ensures Splits(kept, dropped + [item], items + [item])
  {
    assert Splits([item], [], [item]) && Splits([], [item], [item]);
    SplitsConcat(kept, dropped, items, [item], [], [item]);
    SplitsConcat(kept, dropped, items, [], [item], [item]);
    assert dropped + [] == dropped && kept + [] == kept;
  }

  lemma NothingSplits()
    ensures Splits([], [], [])
  {
  }

  lemma {:induction false} FitSlotSplits(slot: Slot, count: nat, used: int, available: int)
    requires count <= |slot.items| && !FitSlot(slot, count, used, available).blocked
    ensures var fit := FitSlot(slot, count, used, available);
            Splits(fit.kept, fit.dropped, slot.items[..count])
  {
    hide Splits, Critical;
    if count == 0 {
      NothingSplits();
      assert slot.items[..0] == [];
    } else {
      FitSlotSplits(slot, count - 1, used, available);
      var earlier, item := FitSlot(slot, count - 1, used, available), slot.items[count - 1];
      assert slot.items[..count] == slot.items[..count - 1] + [item];
      SplitsKeep(earlier.kept, earlier.dropped, slot.items[..count - 1], item);
    }
  }

  ghost predicate NoNegation(items: seq<SlotItem>) {
    forall item <- items :: !item.criticalNegation
  }

  /** Critical slots are taken whole; the others stay inside both limits, and drop nothing flagged. */
  lemma {:induction false} FitSlotLimits(slot: Slot, count: nat, used: int, available: int)
    requires count <= |slot.items| && !FitSlot(slot, count, used, available).blocked
    ensures var fit := FitSlot(slot, count, used, available);
            && (Critical(slot) ==> fit.kept == slot.items[..count] && fit.dropped == [])
            && (!Critical(slot) && fit.kept != [] ==>
                  used + Tokens(fit.kept) <= available && Tokens(fit.kept) <= slot.maxTokens)
            && NoNegation(fit.dropped)
  {
    if count > 0 {
      FitSlotLimits(slot, count - 1, used, available);
      hide Critical;
      var earlier, item := FitSlot(slot, count - 1, used, available), slot.items[count - 1];
      assert slot.items[..count] == slot.items[..count - 1] + [item];
      TokensConcat(earlier.kept, [item]);
      assert Tokens([item]) == item.tokens;
    }
  }

  lemma WholeFitFacts(slot: Slot, used: int, available: int)
    requires !WholeFit(slot, used, available).blocked
    ensures var fit := WholeFit(slot, used, available);
            && Splits(fit.kept, fit.dropped, slot.items)
            && (Critical(slot) ==> fit.kept == slot.items)
            && (!Critical(slot) ==> Tokens(fit.kept) == 0 || used + Tokens(fit.kept) <= available)
            && NoNegation(fit.dropped)
  {
    hide Splits, Critical, NoNegation, FitSlot;
    FitSlotSplits(slot, |slot.items|, used, available);
    FitSlotLimits(slot, |slot.items|, used, available);
    assert slot.items[..|slot.items|] == slot.items;
  }

  lemma {:induction false} ItemsSnoc(slots: seq<Slot>)
    requires slots != []
    ensures Items(slots) == Items(slots[..|slots| - 1]) + slots[|slots| - 1].items
  {
    if |slots| > 1 {
      assert slots[1..][..|slots| - 2] == slots[..|slots| - 1][1..];
      ItemsSnoc(slots[1..]);
    }
  }

  lemma {:induction false} TokensSnoc(slots: seq<Slot>, counts: Slot -> bool)
    requires slots != []
    ensures TokensOf(slots, counts) == TokensOf(slots[..|slots| - 1], counts)
                                       + if counts(slots[|slots| - 1]) then Tokens(slots[|slots| - 1].items) else 0
  {
    if |slots| > 1 {
      assert slots[1..][..|slots| - 2] == slots[..|slots| - 1][1..];
      TokensSnoc(slots[1..], counts);
    }
  }

  lemma {:induction false} TokensOfAll(slots: seq<Slot>)
    ensures TokensOf(slots, AnySlot()) == Tokens(Items(slots))
  {
    if slots != [] {
      TokensOfAll(slots[1..]);
      TokensConcat(slots[0].items, Items(slots[1..]));
    }
  }

  lemma KeptSnoc(fits: seq<SlotFit>, fit: SlotFit)
    ensures Kept(fits + [fit]) == Kept(fits) + fit.kept
    ensures Dropped(fits + [fit]) == Dropped(fits) + fit.dropped
  {
    assert (fits + [fit])[..|fits|] == fits;
  }

  /** The fit of the first `count` slots splits their items, and drops nothing flagged. */
  lemma {:induction false} FitSplits(slots: seq<Slot>, count: nat, available: int)
    requires count <= |slots| && !FitSlots(slots, count, available).blocked
    ensures var fit := FitSlots(slots, count, available);
            && Splits(Kept(fit.fits), Dropped(fit.fits), Items(slots[..count]))
            && fit.used == Tokens(Kept(fit.fits))
            && NoNegation(Dropped(fit.fits))
  {
    hide Splits, WholeFit, Items, Tokens, Kept, Dropped, NoNegation;
    if count == 0 {
      NothingFitted(slots, available);
    } else {
      FitSplits(slots, count - 1, available);
      var earlier, slot := FitSlots(slots, count - 1, available), slots[count - 1];
      var fit := WholeFit(slot, earlier.used, available);
      WholeFitFacts(slot, earlier.used, available);
      assert slots[..count][..count - 1] == slots[..count - 1];
      ItemsSnoc(slots[..count]);
      KeptSnoc(earlier.fits, fit);
      TokensConcat(Kept(earlier.fits), fit.kept);
      NoNegationConcat(Dropped(earlier.fits), fit.dropped);
      SplitsConcat(Kept(earlier.fits), Dropped(earlier.fits), Items(slots[..count - 1]), fit.kept, fit.dropped, slot.items);
    }
  }

  lemma NothingFitted(slots: seq<Slot>, available: int)
    ensures var fits := FitSlots(slots, 0, available).fits;
            && Splits(Kept(fits), Dropped(fits), Items(slots[..0])) && NoNegation(Dropped(fits)) && Tokens(Kept(fits)) == 0
  {
    assert slots[..0] == [];
  }

  lemma NoNegationConcat(a: seq<SlotItem>, b: seq<SlotItem>)
    requires NoNegation(a) && NoNegation(b)
    ensures NoNegation(a + b)
  {
  }

  /** The whole fit, as the laws below need it. */
  lemma FitFacts(slots: seq<Slot>, available: int)
    requires !FitSlots(slots, |slots|, available).blocked
    ensures var fit := FitSlots(slots, |slots|, available);
            && multiset(Kept(fit.fits)) + multiset(Dropped(fit.fits)) == multiset(Items(slots))
            && fit.used + Tokens(Dropped(fit.fits)) == TokensOf(slots, AnySlot())
            && NoNegation(Dropped(fit.fits))
  {
    FitSplits(slots, |slots|, available);
    TokensOfAll(slots);
    assert slots[..|slots|] == slots;
  }

  lemma LastFit(slots: seq<Slot>, count: nat, available: int)
    requires 0 < count <= |slots| && !FitSlots(slots, count, available).blocked
    ensures !FitSlots(slots, count - 1, available).blocked
    ensures var earlier := FitSlots(slots, count - 1, available);
            var fit := WholeFit(slots[count - 1], earlier.used, available);
            && !fit.blocked
            && Kept(FitSlots(slots, count, available).fits) == Kept(earlier.fits) + fit.kept
  {
    hide WholeFit, Kept;
    var earlier := FitSlots(slots, count - 1, available);
    KeptSnoc(earlier.fits, WholeFit(slots[count - 1], earlier.used, available));
  }

  /** The items of critical slots are all kept. */
  lemma {:induction false} CriticalSlotsAreWhole(slots: seq<Slot>, count: nat, available: int, i: nat, item: SlotItem)
    requires i < count <= |slots| && !FitSlots(slots, count, available).blocked
    requires Critical(slots[i]) && item in slots[i].items
    ensures item in Kept(FitSlots(slots, count, available).fits)
  {
    hide FitSlots, Critical, Splits, Kept, WholeFit, NoNegation;
    LastFit(slots, count, available);
    if i == count - 1 {
      WholeFitFacts(slots[i], FitSlots(slots, i, available).used, available);
    } else {
      CriticalSlotsAreWhole(slots, count - 1, available, i, item);
    }
  }

  lemma {:induction false} KeptRefsOf(slots: seq<Slot>, fits: seq<SlotFit>)
    requires |fits| <= |slots|
    ensures KeptRefs(Outcomes(slots, fits)) == ItemRefs(Kept(fits))
  {
    if fits != [] {
      var init := fits[..|fits| - 1];
      KeptRefsOf(slots, init);
      assert Outcomes(slots, fits)[..|init|] == Outcomes(slots, init);
      ItemRefsConcat(Kept(init), fits[|init|].kept);
    }
  }

  lemma ItemRefsMultiset(a: seq<SlotItem>, b: seq<SlotItem>, c: seq<SlotItem>)
    requires multiset(a) + multiset(b) == multiset(c)
    ensures multiset(ItemRefs(a)) + multiset(ItemRefs(b)) == multiset(ItemRefs(c))
  {
    ItemRefsConcat(a, b);
    ItemRefsPermutation(a + b, c);
  }

  /** A list without the element at an index. */
  function Removed<T>(s: seq<T>, i: nat): seq<T>
    requires i < |s|
  {
    s[..i] + s[i + 1..]
  }

  lemma RemovedMultiset<T>(s: seq<T>, i: nat)
    requires i < |s|
    ensures multiset(s) == multiset(Removed(s, i)) + multiset{s[i]}
    ensures multiset(Removed(s, i)) == multiset(s) - multiset{s[i]}
  {
    assert s == s[..i] + [s[i]] + s[i + 1..];
  }

  lemma RemovedRefs(a: seq<SlotItem>, i: nat)
    requires i < |a|
    ensures ItemRefs(Removed(a, i)) == Removed(ItemRefs(a), i)
  {
  }

  lemma {:induction false} ItemRefsPermutation(a: seq<SlotItem>, b: seq<SlotItem>)
    requires multiset(a) == multiset(b)
    ensures multiset(ItemRefs(a)) == multiset(ItemRefs(b))
  {
    if a == [] {
      assert |b| == |multiset(b)| == 0;
    } else {
      assert a[0] in multiset(b);
      var i :| 0 <= i < |b| && b[i] == a[0];
      hide Removed;
      RemovedMultiset(a, 0);
      RemovedMultiset(b, i);
      assert |Removed(a, 0)| == |a| - 1 by { RemovedShorter(a, 0); }
      ItemRefsPermutation(Removed(a, 0), Removed(b, i));
      RemovedRefs(a, 0);
      RemovedRefs(b, i);
      RemovedMultiset(ItemRefs(a), 0);
      RemovedMultiset(ItemRefs(b), i);
    }
  }

  lemma RemovedShorter<T>(s: seq<T>, i: nat)
    requires i < |s|
    ensures |Removed(s, i)| == |s| - 1
  {
  }

  // ---------------------------------------------------------------------
  // The laws of a successful budget
  // ---------------------------------------------------------------------

  /** What `Result` returns when it does not fail. */
  lemma SuccessIsFit(limits: Limits, slots: seq<Slot>, maxTotalTokens: int)
    requires limits.Result(slots, maxTotalTokens).failure == None
    ensures var ordered := OrderSlots(slots);
            var fit := FitSlots(ordered, |ordered|, limits.Available(maxTotalTokens));
            var result := limits.Result(slots, maxTotalTokens);
            && !fit.blocked && |fit.fits| == |ordered|
            && result.fitted == Outcomes(ordered, fit.fits)
            && result.omissions == ItemRefs(Dropped(fit.fits))
            && result.budgetBefore == limits.baseOverheadTokens + TokensOf(ordered, AnySlot())
            && result.budgetAfter == limits.baseOverheadTokens + fit.used
            && TokensOf(ordered, CriticalSlot()) <= limits.Available(maxTotalTokens)
  {
    var ordered := OrderSlots(slots);
    FitSlotsShape(ordered, |ordered|, limits.Available(maxTotalTokens));
  }

  /** Kept refs and omissions are the distinct input refs, each exactly once. */
  lemma KeptAndOmittedPartitionRefs(limits: Limits, slots: seq<Slot>, maxTotalTokens: int)
    requires limits.Result(slots, maxTotalTokens).failure == None
    ensures var result := limits.Result(slots, maxTotalTokens);
            multiset(KeptRefs(result.fitted)) + multiset(result.omissions) == multiset(AllRefs(slots))
  {
    SuccessIsFit(limits, slots, maxTotalTokens);
    hide FitSlots, Sorted, Outcomes;
    var ordered, available := OrderSlots(slots), limits.Available(maxTotalTokens);
    var fits := FitSlots(ordered, |ordered|, available).fits;
    FitFacts(ordered, available);
    KeptRefsOf(ordered, fits);
    ItemRefsMultiset(Kept(fits), Dropped(fits), Items(ordered));
    DedupedRefs(Sorted(slots, SlotLe), {});
    SortingKeepsRefs(slots);
    assert AllRefs(slots) - {} == AllRefs(slots);
  }

  /** What the budget saves is what it omits. */
  lemma SavedTokensAreOmitted(limits: Limits, slots: seq<Slot>, maxTotalTokens: int)
    requires limits.Result(slots, maxTotalTokens).failure == None
    ensures var result := limits.Result(slots, maxTotalTokens);
            exists omitted: seq<SlotItem> ::
              && ItemRefs(omitted) == result.omissions
              && multiset(omitted) <= multiset(Items(OrderSlots(slots)))
              && result.budgetBefore - result.budgetAfter == Tokens(omitted)
  {
    SuccessIsFit(limits, slots, maxTotalTokens);
    hide FitSlots, OrderSlots, Outcomes;
    var ordered, available := OrderSlots(slots), limits.Available(maxTotalTokens);
    FitFacts(ordered, available);
    var omitted := Dropped(FitSlots(ordered, |ordered|, available).fits);
    assert multiset(omitted) <= multiset(Items(ordered));
  }

  /** No item flagged as a critical negation after deduplication is omitted. */
  lemma CriticalNegationsAreKept(limits: Limits, slots: seq<Slot>, maxTotalTokens: int)
    requires limits.Result(slots, maxTotalTokens).failure == None
    ensures forall item <- Items(OrderSlots(slots)) | item.criticalNegation ::
              item.ref in KeptRefs(limits.Result(slots, maxTotalTokens).fitted)
  {
    SuccessIsFit(limits, slots, maxTotalTokens);
    hide FitSlots, OrderSlots, Outcomes;
    var ordered, available := OrderSlots(slots), limits.Available(maxTotalTokens);
    var fits := FitSlots(ordered, |ordered|, available).fits;
    FitFacts(ordered, available);
    KeptRefsOf(ordered, fits);
    forall item <- Items(ordered) | item.criticalNegation ensures item.ref in ItemRefs(Kept(fits)) {
      assert item in multiset(Items(ordered));
      assert item in Kept(fits);
      RefListed(Kept(fits), item);
    }
  }

  lemma RefListed(items: seq<SlotItem>, item: SlotItem)
    requires item in items
    ensures item.ref in ItemRefs(items)
  {
    var i :| 0 <= i < |items| && items[i] == item;
    assert ItemRefs(items)[i] == item.ref;
  }

  /** Every ref that a tier 0 slot mentions is kept, whatever else mentions it. */
  lemma TierZeroRefsAreKept(limits: Limits, slots: seq<Slot>, maxTotalTokens: int, slot: Slot, item: SlotItem)
    requires limits.Result(slots, maxTotalTokens).failure == None
    requires forall s <- slots :: s.tier >= 0
    requires slot in slots && slot.tier == 0 && item in slot.items
    ensures item.ref in KeptRefs(limits.Result(slots, maxTotalTokens).fitted)
  {
    SuccessIsFit(limits, slots, maxTotalTokens);
    hide FitSlots, Outcomes;
    var sorted, ordered, available := Sorted(slots, SlotLe), OrderSlots(slots), limits.Available(maxTotalTokens);
    var fits := FitSlots(ordered, |ordered|, available).fits;
    SlotOrder();
    SortedSorts(slots, SlotLe);
    assert slot in multiset(slots);
    forall s <- sorted ensures s.tier >= 0 {
      assert s in multiset(slots);
    }
    var first, kept := TierZeroFirst(sorted, {}, slot, item);
    var i :| 0 <= i < |ordered| && ordered[i] == first;
    CriticalSlotsAreWhole(ordered, |ordered|, available, i, kept);
    KeptRefsOf(ordered, fits);
    RefListed(Kept(fits), kept);
  }

  /** A ref of a tier 0 slot survives deduplication inside a tier 0 slot. */
  lemma {:induction false} TierZeroFirst(sorted: seq<Slot>, seen: set<string>, slot: Slot, item: SlotItem)
    returns (first: Slot, kept: SlotItem)
    requires IsSorted(sorted, SlotLe) && forall s <- sorted :: s.tier >= 0
    requires slot in sorted && slot.tier == 0 && item in slot.items && item.ref !in seen
    ensures first in Deduped(sorted, seen) && first.tier == 0 && kept in first.items && kept.ref == item.ref
  {
    var head := sorted[0];
    var i :| 0 <= i < |sorted| && sorted[i] == slot;
    assert head.tier == 0 by {
      if i > 0 {
        assert SlotLe(sorted[0], sorted[i]);
      }
    }
    if item.ref in Refs(head.items) {
      FreshRefs(head.items, seen);
      var refs := ItemRefs(FreshItems(head.items, seen));
      assert item.ref in multiset(refs);
      var j :| 0 <= j < |refs| && refs[j] == item.ref;
      kept := FreshItems(head.items, seen)[j];
      first := head.(items := FreshItems(head.items, seen));
    } else {
      assert item.ref !in Refs(head.items) && slot != head;
      first, kept := TierZeroFirst(sorted[1..], seen + Refs(head.items), slot, item);
    }
  }

  // ---------------------------------------------------------------------
  // The bound
  // ---------------------------------------------------------------------

  ghost predicate NonNegative(slots: seq<Slot>) {
    forall slot <- slots :: slot.tier >= 0 && forall item <- slot.items :: item.tokens >= 0
  }

  /** Tier 0 slots come first in a list sorted by tier. */
  ghost predicate TierSorted(slots: seq<Slot>) {
    forall i, j | 0 <= i < j < |slots| :: slots[i].tier <= slots[j].tier
  }

  function TierZeroSlot(): Slot -> bool { (slot: Slot) => slot.tier == 0 }

  lemma {:induction false} TokensNonNegative(items: seq<SlotItem>)
    requires forall item <- items :: item.tokens >= 0
    ensures Tokens(items) >= 0
  {
    if items != [] {
      TokensNonNegative(items[1..]);
    }
  }

  lemma {:induction false} SumNonNegative(slots: seq<Slot>, counts: Slot -> bool)
    requires NonNegative(slots)
    ensures TokensOf(slots, counts) >= 0
  {
    if slots != [] {
      TokensNonNegative(slots[0].items);
      SumNonNegative(slots[1..], counts);
    }
  }

  lemma {:induction false} CriticalSplits(slots: seq<Slot>)
    ensures TokensOf(slots, CriticalSlot()) == TokensOf(slots, TierZeroSlot()) + TokensOf(slots, LateCriticalSlot())
  {
    if slots != [] {
      CriticalSplits(slots[1..]);
    }
  }

  /** After `count` slots: only critical slots below tier 0 can push the sum over what is available. */
  lemma {:induction false} FitBound(slots: seq<Slot>, count: nat, available: int)
    requires count <= |slots| && !FitSlots(slots, count, available).blocked
    requires NonNegative(slots) && TierSorted(slots) && TokensOf(slots, CriticalSlot()) <= available
    ensures FitSlots(slots, count, available).used <= available + TokensOf(slots[..count], LateCriticalSlot())
  {
    hide TokensOf, NonNegative, TierSorted;
    if count > 0 && slots[count - 1].tier != 0 {
      var slot, earlier := slots[count - 1], FitSlots(slots, count - 1, available);
      FitBound(slots, count - 1, available);
      PrefixNonNegative(slots, count);
      SumNonNegative(slots[..count], LateCriticalSlot());
      hide Splits, FitSlot;
      WholeFitFacts(slot, earlier.used, available);
      assert slots[..count][..count - 1] == slots[..count - 1];
      TokensSnoc(slots[..count], LateCriticalSlot());
      assert LateCriticalSlot()(slot) <==> slot.isCritical;
    } else {
      hide FitSlots;
      TierZeroBound(slots, count, available);
    }
  }

  /** While tier 0 lasts, what is used is at most what the first check allowed. */
  lemma TierZeroBound(slots: seq<Slot>, count: nat, available: int)
    requires count <= |slots| && !FitSlots(slots, count, available).blocked
    requires NonNegative(slots) && TierSorted(slots) && TokensOf(slots, CriticalSlot()) <= available
    requires count > 0 ==> slots[count - 1].tier == 0
    ensures FitSlots(slots, count, available).used <= available + TokensOf(slots[..count], LateCriticalSlot())
  {
    hide FitSlots, TokensOf, Critical;
    assert forall s <- slots[..count] :: s.tier == 0;
    AllTierZero(slots, count, available);
    PrefixNonNegative(slots, count);
    hide NonNegative, TierSorted;
    CriticalSplits(slots);
    SumSplit(slots, count, TierZeroSlot());
    SumNonNegative(slots, LateCriticalSlot());
    SumNonNegative(slots[..count], LateCriticalSlot());
    SumNonNegative(slots[count..], TierZeroSlot());
  }

  lemma PrefixNonNegative(slots: seq<Slot>, count: nat)
    requires count <= |slots| && NonNegative(slots)
    ensures NonNegative(slots[..count]) && NonNegative(slots[count..])
  {
  }

  lemma {:induction false} SumSplit(slots: seq<Slot>, count: nat, counts: Slot -> bool)
    requires count <= |slots|
    ensures TokensOf(slots, counts) == TokensOf(slots[..count], counts) + TokensOf(slots[count..], counts)
  {
    if count > 0 {
      assert slots[..count][1..] == slots[1..][..count - 1];
      SumSplit(slots[1..], count - 1, counts);
    }
  }

  /** Slots of tier 0 are taken whole. */
  lemma {:induction false} AllTierZero(slots: seq<Slot>, count: nat, available: int)
    requires count <= |slots| && !FitSlots(slots, count, available).blocked
    requires forall s <- slots[..count] :: s.tier == 0
    ensures FitSlots(slots, count, available).used == TokensOf(slots[..count], TierZeroSlot())
  {
    if count > 0 {
      assert slots[..count][..count - 1] == slots[..count - 1];
      assert slots[count - 1] in slots[..count];
      AllTierZero(slots, count - 1, available);
      WholeFitFacts(slots[count - 1], FitSlots(slots, count - 1, available).used, available);
      TokensSnoc(slots[..count], TierZeroSlot());
    }
  }

  /** Every deduplicated slot is an input slot that has lost items. */
  ghost predicate Thins(deduped: seq<Slot>, slots: seq<Slot>) {
    forall d <- deduped :: ThinsOne(d, slots)
  }

  ghost predicate ThinsOne(d: Slot, slots: seq<Slot>) {
    exists s <- slots :: d.tier == s.tier && d.isCritical == s.isCritical && forall item <- d.items :: item in s.items
  }

  lemma {:induction false} DedupedThins(slots: seq<Slot>, seen: set<string>)
    ensures Thins(Deduped(slots, seen), slots)
  {
    if slots != [] {
      var rest := Deduped(slots[1..], seen + Refs(slots[0].items));
      DedupedThins(slots[1..], seen + Refs(slots[0].items));
      FreshSubset(slots[0].items, seen);
      forall d <- Deduped(slots, seen) ensures ThinsOne(d, slots) {
        if d in rest {
          assert ThinsOne(d, slots[1..]);
        } else {
          assert slots[0] in slots;
        }
      }
    }
  }

  lemma {:induction false} DedupedSorted(slots: seq<Slot>, seen: set<string>)
    requires TierSorted(slots)
    ensures TierSorted(Deduped(slots, seen))
  {
    if slots != [] {
      var rest := Deduped(slots[1..], seen + Refs(slots[0].items));
      DedupedSorted(slots[1..], seen + Refs(slots[0].items));
      DedupedThins(slots[1..], seen + Refs(slots[0].items));
      forall d <- rest ensures slots[0].tier <= d.tier {
        assert ThinsOne(d, slots[1..]);
      }
    }
  }

  lemma {:induction false} FreshSubset(items: seq<SlotItem>, seen: set<string>)
    ensures forall item <- FreshItems(items, seen) :: item in items
  {
    if items != [] {
      FreshSubset(items[1..], seen);
      FreshSubset(items[1..], seen + {items[0].ref});
    }
  }

  lemma OrderedShape(slots: seq<Slot>)
    requires NonNegative(slots)
    ensures NonNegative(OrderSlots(slots)) && TierSorted(OrderSlots(slots)) && Thins(OrderSlots(slots), slots)
  {
    var sorted := Sorted(slots, SlotLe);
    SortedTiers(slots);
    hide Sorted, Deduped;
    DedupedSorted(sorted, {});
    DedupedThins(sorted, {});
    forall d <- Deduped(sorted, {}) ensures ThinsOne(d, slots) && d.tier >= 0 && forall item <- d.items :: item.tokens >= 0 {
      assert ThinsOne(d, sorted);
    }
  }

  lemma SortedTiers(slots: seq<Slot>)
    ensures TierSorted(Sorted(slots, SlotLe))
    ensures forall s <- Sorted(slots, SlotLe) :: s in slots
  {
    SlotOrder();
    SortedSorts(slots, SlotLe);
    hide Sorted, KeyOrder;
    var sorted := Sorted(slots, SlotLe);
    forall s <- sorted ensures s in slots {
      assert s in multiset(slots);
    }
    forall i, j | 0 <= i < j < |sorted| ensures sorted[i].tier <= sorted[j].tier {
      assert SlotLe(sorted[i], sorted[j]);
    }
  }

  /**
   * The final size never exceeds the limit less the reserve by more than the critical slots below
   * tier 0 hold, because those are taken without looking at what is left.
   */
  lemma BudgetBound(limits: Limits, slots: seq<Slot>, maxTotalTokens: int)
    requires NonNegative(slots) && limits.Result(slots, maxTotalTokens).failure == None
    ensures limits.Result(slots, maxTotalTokens).budgetAfter
            <= maxTotalTokens - limits.criticalReserveTokens + TokensOf(OrderSlots(slots), LateCriticalSlot())
  {
    SuccessIsFit(limits, slots, maxTotalTokens);
    OrderedShape(slots);
    hide FitSlots, OrderSlots, Outcomes;
    var ordered := OrderSlots(slots);
    FitBound(ordered, |ordered|, limits.Available(maxTotalTokens));
    assert ordered[..|ordered|] == ordered;
  }

  /** The check that the critical branch leaves out: a late critical slot fits into what is left. */
  ghost predicate LateFits(ordered: seq<Slot>, i: nat, available: int)
    requires i < |ordered|
  {
    LateCriticalSlot()(ordered[i]) ==> FitSlots(ordered, i, available).used + Tokens(ordered[i].items) <= available
  }

  /** As long as every late critical slot fits, the sum stays inside the limit. */
  lemma {:induction false} FitsThroughout(slots: seq<Slot>, count: nat, available: int)
    requires count <= |slots| && !FitSlots(slots, count, available).blocked
    requires NonNegative(slots) && TierSorted(slots) && TokensOf(slots, CriticalSlot()) <= available
    requires forall i: nat | i < count :: LateFits(slots, i, available)
    ensures FitSlots(slots, count, available).used <= available
  {
    hide TokensOf, NonNegative, TierSorted, Splits, NoNegation, FitSlot, WholeFit;
    if count > 0 && slots[count - 1].tier != 0 {
      var slot, earlier := slots[count - 1], FitSlots(slots, count - 1, available);
      assert LateFits(slots, count - 1, available);
      FitsThroughout(slots, count - 1, available);
      WholeFitFacts(slot, earlier.used, available);
    } else {
      hide FitSlots;
      TierZeroBound(slots, count, available);
      TierZeroPrefix(slots, count);
      PrefixNonNegative(slots, count);
      NoLateCritical(slots[..count]);
    }
  }

  lemma TierZeroPrefix(slots: seq<Slot>, count: nat)
    requires count <= |slots| && TierSorted(slots) && NonNegative(slots)
    requires count > 0 ==> slots[count - 1].tier == 0
    ensures forall slot <- slots[..count] :: slot.tier == 0
  {
    forall i | 0 <= i < count ensures slots[i].tier == 0 {
      assert slots[i] in slots;
    }
  }

  /** A late critical slot is taken whole, so it fits if the whole result does. */
  lemma TakenSlotFits(slots: seq<Slot>, i: nat, available: int)
    requires i < |slots| && NonNegative(slots) && !FitSlots(slots, |slots|, available).blocked
    requires FitSlots(slots, |slots|, available).used <= available
    ensures LateFits(slots, i, available)
  {
    hide WholeFit, NonNegative, Splits, NoNegation;
    UsedGrows(slots, i + 1, |slots|, available);
    if LateCriticalSlot()(slots[i]) {
      WholeFitFacts(slots[i], FitSlots(slots, i, available).used, available);
    }
  }

  /**
   * There is no overrun exactly when every critical slot below tier 0 fits into what is left at its
   * turn: the check that the source makes for optional items only.
   */
  lemma NoOverrunExactly(limits: Limits, slots: seq<Slot>, maxTotalTokens: int)
    requires NonNegative(slots) && limits.Result(slots, maxTotalTokens).failure == None
    ensures var ordered, available := OrderSlots(slots), limits.Available(maxTotalTokens);
            limits.Result(slots, maxTotalTokens).budgetAfter <= maxTotalTokens - limits.criticalReserveTokens
            <==> forall i: nat | i < |ordered| :: LateFits(ordered, i, available)
  {
    SuccessIsFit(limits, slots, maxTotalTokens);
    OrderedShape(slots);
    hide FitSlots, OrderSlots, Outcomes, LateFits, NonNegative, TierSorted, Thins, TokensOf;
    var ordered, available := OrderSlots(slots), limits.Available(maxTotalTokens);
    if limits.Result(slots, maxTotalTokens).budgetAfter <= maxTotalTokens - limits.criticalReserveTokens {
      forall i: nat | i < |ordered| ensures LateFits(ordered, i, available) {
        TakenSlotFits(ordered, i, available);
      }
    }
    if forall i: nat | i < |ordered| :: LateFits(ordered, i, available) {
      FitsThroughout(ordered, |ordered|, available);
    }
  }

  /** When only tier 0 slots are critical there is no overrun at all. */
  lemma NoOverrunWhenOnlyTierZeroIsCritical(limits: Limits, slots: seq<Slot>, maxTotalTokens: int)
    requires NonNegative(slots) && limits.Result(slots, maxTotalTokens).failure == None
    requires forall slot <- slots | slot.isCritical :: slot.tier == 0
    ensures limits.Result(slots, maxTotalTokens).budgetAfter <= maxTotalTokens - limits.criticalReserveTokens
  {
    NoOverrunExactly(limits, slots, maxTotalTokens);
    OrderedShape(slots);
    hide OrderSlots;
    var ordered := OrderSlots(slots);
    forall i: nat | i < |ordered| ensures LateFits(ordered, i, limits.Available(maxTotalTokens)) {
      assert ThinsOne(ordered[i], slots);
    }
  }

  lemma {:induction false} NoLateCritical(slots: seq<Slot>)
    requires forall slot <- slots | slot.isCritical :: slot.tier == 0
    ensures TokensOf(slots, LateCriticalSlot()) == 0
  {
    if slots != [] {
      NoLateCritical(slots[1..]);
    }
  }

  /** The overrun is real: an optional item is let in, and a later critical slot no longer fits. */
  lemma LateCriticalSlotOverruns(limits: Limits)
    requires limits.criticalReserveTokens == 0 && limits.baseOverheadTokens == 0
    ensures var a := Slot("a", 1, 10, [SlotItem("x", 8, false)], false);
            var b := Slot("b", 1, 10, [SlotItem("y", 5, false)], true);
            limits.Result([a, b], 10).failure == None && limits.Result([a, b], 10).budgetAfter == 13
  {
    var a := Slot("a", 1, 10, [SlotItem("x", 8, false)], false);
    var b := Slot("b", 1, 10, [SlotItem("y", 5, false)], true);
    assert StringLe("a", "b");
    SortedPair(a, b);
    DedupedPair(a, b);
    OverrunFit();
  }

  lemma OverrunFit()
    ensures var a := Slot("a", 1, 10, [SlotItem("x", 8, false)], false);
            var b := Slot("b", 1, 10, [SlotItem("y", 5, false)], true);
            && TokensOf([a, b], CriticalSlot()) == 5
            && !FitSlots([a, b], 2, 10).blocked && FitSlots([a, b], 2, 10).used == 13
  {
    var a := Slot("a", 1, 10, [SlotItem("x", 8, false)], false);
    var b := Slot("b", 1, 10, [SlotItem("y", 5, false)], true);
    assert [a, b][1..] == [b] && [b][1..] == [];
    assert Tokens(b.items) == 5 && Tokens(a.items) == 8;
    assert TokensOf([], CriticalSlot()) == 0;
    assert TokensOf([b], CriticalSlot()) == 5;
    assert FitSlot(a, 0, 0, 10) == SlotFit(false, [], []);
    assert WholeFit(a, 0, 10) == SlotFit(false, [] + [a.items[0]], []);
    assert [] + [a.items[0]] == a.items;
    assert FitSlots([a, b], 1, 10).used == 8;
    assert FitSlot(b, 0, 8, 10) == SlotFit(false, [], []);
    assert WholeFit(b, 8, 10) == SlotFit(false, [] + [b.items[0]], []);
    assert [] + [b.items[0]] == b.items;
  }

  // ---------------------------------------------------------------------
  // Nothing is omitted needlessly
  // ---------------------------------------------------------------------

  /** An item would overrun the limit or its slot's own limit. */
  predicate WouldNotFit(slot: Slot, used: int, kept: int, available: int, item: SlotItem) {
    used + kept + item.tokens > available || kept + item.tokens > slot.maxTokens
  }

  ghost predicate NonNegativeItems(items: seq<SlotItem>) {
    forall item <- items :: item.tokens >= 0
  }

  /** Each dropped item still would not fit when the slot is done: what is kept only grows. */
  lemma {:induction false} DroppedWouldNotFit(slot: Slot, count: nat, used: int, available: int, item: SlotItem)
    requires count <= |slot.items| && NonNegativeItems(slot.items)
    requires !FitSlot(slot, count, used, available).blocked && item in FitSlot(slot, count, used, available).dropped
    ensures WouldNotFit(slot, used, Tokens(FitSlot(slot, count, used, available).kept), available, item)
  {
    hide Critical, Tokens;
    var earlier, next := FitSlot(slot, count - 1, used, available), slot.items[count - 1];
    assert next.tokens >= 0 by { assert next in slot.items; }
    TokensConcat(earlier.kept, [next]);
    OneItemTokens(next);
    if item in earlier.dropped {
      DroppedWouldNotFit(slot, count - 1, used, available, item);
    }
  }

  lemma OneItemTokens(item: SlotItem)
    ensures Tokens([item]) == item.tokens
  {
  }

  /** The sum only grows from slot to slot. */
  lemma {:induction false} UsedGrows(slots: seq<Slot>, s: nat, t: nat, available: int)
    requires s <= t <= |slots| && NonNegative(slots) && !FitSlots(slots, t, available).blocked
    ensures !FitSlots(slots, s, available).blocked
    ensures FitSlots(slots, s, available).used <= FitSlots(slots, t, available).used
    ensures FitSlots(slots, s, available).fits <= FitSlots(slots, t, available).fits
    decreases t
  {
    if s < t {
      hide WholeFit, NonNegative;
      UsedGrows(slots, s, t - 1, available);
      KeptNonNegative(slots, t - 1, FitSlots(slots, t - 1, available).used, available);
    }
  }

  lemma KeptNonNegative(slots: seq<Slot>, s: nat, used: int, available: int)
    requires s < |slots| && NonNegative(slots) && !WholeFit(slots[s], used, available).blocked
    ensures Tokens(WholeFit(slots[s], used, available).kept) >= 0
  {
    WholeFitFacts(slots[s], used, available);
    var kept := WholeFit(slots[s], used, available).kept;
    forall item <- kept ensures item.tokens >= 0 {
      assert item in multiset(slots[s].items);
      assert item in slots[s].items;
    }
    TokensNonNegative(kept);
  }

  /**
   * The result is maximal: with nonnegative tokens, no omitted item could still be added to it
   * without overrunning the limit or its slot's own limit.
   */
  lemma OmittedWouldNotFit(limits: Limits, slots: seq<Slot>, maxTotalTokens: int, s: nat, item: SlotItem)
    requires NonNegative(slots) && limits.Result(slots, maxTotalTokens).failure == None
    requires var ordered := OrderSlots(slots);
             s < |FitSlots(ordered, |ordered|, limits.Available(maxTotalTokens)).fits| && s < |ordered|
             && item in FitSlots(ordered, |ordered|, limits.Available(maxTotalTokens)).fits[s].dropped
    ensures var result, slot := limits.Result(slots, maxTotalTokens), OrderSlots(slots)[s];
            && |result.fitted| == |OrderSlots(slots)|
            && item.ref in result.fitted[s].dropped
            && (result.budgetAfter + item.tokens > maxTotalTokens - limits.criticalReserveTokens
                || result.fitted[s].tokens + item.tokens > slot.maxTokens)
  {
    SuccessIsFit(limits, slots, maxTotalTokens);
    OrderedShape(slots);
    hide OrderSlots, NonNegative, TierSorted, Thins, FitSlots, WholeFit;
    var ordered, available := OrderSlots(slots), limits.Available(maxTotalTokens);
    FitAt(ordered, s, available);
    var fit := FitSlots(ordered, |ordered|, available).fits[s];
    RefListed(fit.dropped, item);
    SlotItemsNonNegative(ordered, s);
    WholeDroppedWouldNotFit(ordered[s], FitSlots(ordered, s, available).used, available, item);
  }

  lemma SlotItemsNonNegative(slots: seq<Slot>, s: nat)
    requires NonNegative(slots) && s < |slots|
    ensures NonNegativeItems(slots[s].items)
  {
    assert slots[s] in slots;
  }

  lemma WholeDroppedWouldNotFit(slot: Slot, used: int, available: int, item: SlotItem)
    requires NonNegativeItems(slot.items) && !WholeFit(slot, used, available).blocked
    requires item in WholeFit(slot, used, available).dropped
    ensures WouldNotFit(slot, used, Tokens(WholeFit(slot, used, available).kept), available, item)
  {
    DroppedWouldNotFit(slot, |slot.items|, used, available, item);
  }

  /** The fit of one slot inside the whole fit. */
  lemma FitAt(slots: seq<Slot>, s: nat, available: int)
    requires s < |slots| && NonNegative(slots) && !FitSlots(slots, |slots|, available).blocked
    ensures var whole, used := FitSlots(slots, |slots|, available), FitSlots(slots, s, available).used;
            && s < |whole.fits|
            && !WholeFit(slots[s], used, available).blocked
            && whole.fits[s] == WholeFit(slots[s], used, available)
            && used + Tokens(whole.fits[s].kept) <= whole.used
  {
    hide WholeFit, NonNegative;
    UsedGrows(slots, s + 1, |slots|, available);
    UsedGrows(slots, s, s + 1, available);
    FitSlotsShape(slots, s, available);
  }

  // ---------------------------------------------------------------------
  // Failing closed
  // ---------------------------------------------------------------------

  /** The item at `c` is flagged and does not fit after the items kept before it. */
  predicate Refuses(slot: Slot, c: nat, used: int, available: int)
    requires c < |slot.items|
  {
    var earlier, item := FitSlot(slot, c, used, available), slot.items[c];
    && !earlier.blocked && item.criticalNegation && !slot.isCritical && slot.tier != 0
    && (used + Tokens(earlier.kept) + item.tokens > available || Tokens(earlier.kept) + item.tokens > slot.maxTokens)
  }

  lemma {:induction false} BlockedExactly(slot: Slot, count: nat, used: int, available: int)
    requires count <= |slot.items|
    ensures FitSlot(slot, count, used, available).blocked <==> exists c | 0 <= c < count :: Refuses(slot, c, used, available)
  {
    if count > 0 {
      BlockedExactly(slot, count - 1, used, available);
      if FitSlot(slot, count - 1, used, available).blocked {
        var c :| 0 <= c < count - 1 && Refuses(slot, c, used, available);
      } else if FitSlot(slot, count, used, available).blocked {
        assert Refuses(slot, count - 1, used, available);
      }
    }
  }

  /** The first slot that refuses an item stops the fit, with the tokens of the slots before it spent. */
  lemma {:induction false} FitStops(slots: seq<Slot>, count: nat, available: int) returns (s: nat)
    requires count <= |slots| && FitSlots(slots, count, available).blocked
    ensures s < count && !FitSlots(slots, s, available).blocked
    ensures WholeFit(slots[s], FitSlots(slots, s, available).used, available).blocked
    ensures FitSlots(slots, count, available).used == FitSlots(slots, s, available).used
  {
    hide WholeFit;
    if FitSlots(slots, count - 1, available).blocked {
      s := FitStops(slots, count - 1, available);
    } else {
      s := count - 1;
    }
  }

  lemma {:induction false} FitGoesOn(slots: seq<Slot>, count: nat, available: int, s: nat)
    requires s < count <= |slots| && !FitSlots(slots, count, available).blocked
    ensures !FitSlots(slots, s, available).blocked
    ensures !WholeFit(slots[s], FitSlots(slots, s, available).used, available).blocked
  {
    hide WholeFit;
    if s < count - 1 {
      FitGoesOn(slots, count - 1, available, s);
    }
  }

  /** Slot `s` is reached, and refuses one of its items. */
  ghost predicate RefusedAt(slots: seq<Slot>, s: nat, available: int)
    requires s < |slots|
  {
    && !FitSlots(slots, s, available).blocked
    && exists c | 0 <= c < |slots[s].items| :: Refuses(slots[s], c, FitSlots(slots, s, available).used, available)
  }

  /**
   * A budget fails exactly when its critical tokens exceed what is available, or else some optional
   * slot refuses a flagged item; it then keeps nothing, and in the second case reports what was
   * spent before that slot.
   */
  lemma FailsExactly(limits: Limits, slots: seq<Slot>, maxTotalTokens: int)
    ensures var result, ordered, available :=
              limits.Result(slots, maxTotalTokens), OrderSlots(slots), limits.Available(maxTotalTokens);
            && (result.failure == Some(CriticalSlotsExceedBudget) <==> TokensOf(ordered, CriticalSlot()) > available)
            && (result.failure == Some(CriticalSlotsExceedBudget) ==> result.budgetAfter == 0)
            && (result.failure == Some(CriticalNegationWouldBeTruncated) <==>
                  TokensOf(ordered, CriticalSlot()) <= available
                  && exists s | 0 <= s < |ordered| :: RefusedAt(ordered, s, available))
            && (result.failure == Some(CriticalNegationWouldBeTruncated) ==>
                  exists s | 0 <= s < |ordered| :: RefusedAt(ordered, s, available)
                    && result.budgetAfter == FitSlots(ordered, s, available).used + limits.baseOverheadTokens)
            && (result.failure != None ==> result.fitted == [] && result.omissions == [])
            && result.budgetBefore == TokensOf(ordered, AnySlot()) + limits.baseOverheadTokens
  {
    hide OrderSlots, TokensOf, Refuses, FitSlot, Outcomes, Dropped;
    var ordered, available := OrderSlots(slots), limits.Available(maxTotalTokens);
    FitSlotsShape(ordered, |ordered|, available);
    if FitSlots(ordered, |ordered|, available).blocked {
      var s := FitStops(ordered, |ordered|, available);
      BlockedExactly(ordered[s], |ordered[s].items|, FitSlots(ordered, s, available).used, available);
      assert RefusedAt(ordered, s, available);
    } else {
      forall s | 0 <= s < |ordered| ensures !RefusedAt(ordered, s, available) {
        FitGoesOn(ordered, |ordered|, available, s);
        BlockedExactly(ordered[s], |ordered[s].items|, FitSlots(ordered, s, available).used, available);
      }
    }
    hide FitSlots, RefusedAt, WholeFit;
  }

  // ---------------------------------------------------------------------
  // The order of the slots
  // ---------------------------------------------------------------------

  predicate KeyIn(d: Slot, slots: seq<Slot>) {
    exists s <- slots :: s.tier == d.tier && s.slotRef == d.slotRef
  }

  lemma {:induction false} DedupedKeys(slots: seq<Slot>, seen: set<string>)
    requires IsSorted(slots, SlotLe)
    ensures IsSorted(Deduped(slots, seen), SlotLe)
    ensures forall d <- Deduped(slots, seen) :: KeyIn(d, slots)
  {
    if slots != [] {
      var rest := Deduped(slots[1..], seen + Refs(slots[0].items));
      assert IsSorted(slots[1..], SlotLe);
      DedupedKeys(slots[1..], seen + Refs(slots[0].items));
      hide FreshItems, Refs;
      forall d <- rest ensures SlotLe(slots[0], d) && KeyIn(d, slots) {
        assert KeyIn(d, slots[1..]);
        var s :| s in slots[1..] && s.tier == d.tier && s.slotRef == d.slotRef;
        assert s in slots;
        assert SlotLe(slots[0], s);
      }
      assert slots[0] in slots;
      FirstThenRest(slots[0].(items := FreshItems(slots[0].items, seen)), rest);
    }
  }

  lemma FirstThenRest(first: Slot, rest: seq<Slot>)
    requires IsSorted(rest, SlotLe)
    ensures (forall d <- rest :: SlotLe(first, d)) ==> IsSorted([first] + rest, SlotLe)
  {
    hide SlotLe;
  }

  /** Slots are served by tier, and within a tier by their refs. */
  lemma ServedByTierAndRef(slots: seq<Slot>, i: nat, j: nat)
    requires i < j < |OrderSlots(slots)|
    ensures var a, b := OrderSlots(slots)[i], OrderSlots(slots)[j];
            a.tier < b.tier || (a.tier == b.tier && StringLe(a.slotRef, b.slotRef))
  {
    SlotOrder();
    SortedSorts(slots, SlotLe);
    hide Sorted;
    DedupedKeys(Sorted(slots, SlotLe), {});
    assert SlotLe(OrderSlots(slots)[i], OrderSlots(slots)[j]);
  }
}
