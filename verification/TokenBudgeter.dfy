/** Fitting prompt slots into a token budget: sort, dedupe, greedy fit, fail closed. */
module TokenBudgeter {
  import opened Common
  import opened Sorting

  const DEFAULT_BASE_OVERHEAD_TOKENS := 64

  datatype SlotItem = SlotItem(ref: string, tokens: int, criticalNegation: bool)

  datatype Slot = Slot(slotRef: string, tier: int, maxTokens: int, items: seq<SlotItem>, isCritical: bool)

  datatype FailureReason = CriticalSlotsExceedBudget | CriticalNegationWouldBeTruncated

  datatype SlotOutcome = SlotOutcome(slotRef: string, kept: seq<string>, dropped: seq<string>, tokens: int)

  datatype BudgetResult = BudgetResult(
    failure: Option<FailureReason>,
    fitted: seq<SlotOutcome>,
    omissions: seq<string>,
    budgetBefore: int,
    budgetAfter: int)

  predicate Critical(slot: Slot) {
    slot.isCritical || slot.tier == 0
  }

  // ---------------------------------------------------------------------
  // Ordering and deduplication
  // ---------------------------------------------------------------------

  predicate SlotLe(a: Slot, b: Slot) {
    a.tier < b.tier || (a.tier == b.tier && StringLe(a.slotRef, b.slotRef))
  }

  lemma SlotOrder()
    ensures KeyOrder(SlotLe)
  {
    forall a, b ensures SlotLe(a, b) || SlotLe(b, a) {
      StringLeTotal(a.slotRef, b.slotRef);
    }
    forall a, b, c | SlotLe(a, b) && SlotLe(b, c) ensures SlotLe(a, c) {
      if a.tier == b.tier == c.tier {
        StringLeTransitive(a.slotRef, b.slotRef, c.slotRef);
      }
    }
  }

  function Refs(items: seq<SlotItem>): set<string> {
    set item <- items :: item.ref
  }

  function AllRefs(slots: seq<Slot>): set<string> {
    set slot <- slots, item <- slot.items :: item.ref
  }

  /** The items whose ref has not been seen, first occurrence only. */
  function FreshItems(items: seq<SlotItem>, seen: set<string>): seq<SlotItem> {
    if items == [] then []
    else if items[0].ref in seen then FreshItems(items[1..], seen)
    else [items[0]] + FreshItems(items[1..], seen + {items[0].ref})
  }

  /** Keeps the first occurrence of each ref and leaves out slots that become empty. */
  function Deduped(slots: seq<Slot>, seen: set<string>): seq<Slot> {
    if slots == [] then []
    else
      var items := FreshItems(slots[0].items, seen);
      var rest := Deduped(slots[1..], seen + Refs(slots[0].items));
      if items == [] then rest else [slots[0].(items := items)] + rest
  }

  function OrderSlots(slots: seq<Slot>): seq<Slot> {
    Deduped(Sorted(slots, SlotLe), {})
  }

  // ---------------------------------------------------------------------
  // Token sums and the greedy fit
  // ---------------------------------------------------------------------

  function Tokens(items: seq<SlotItem>): int {
    if items == [] then 0 else items[0].tokens + Tokens(items[1..])
  }

  /** The tokens of the slots that satisfy a condition. */
  function TokensOf(slots: seq<Slot>, counts: Slot -> bool): int {
    if slots == [] then 0
    else (if counts(slots[0]) then Tokens(slots[0].items) else 0) + TokensOf(slots[1..], counts)
  }

  function AnySlot(): Slot -> bool { (slot: Slot) => true }

  function CriticalSlot(): Slot -> bool { (slot: Slot) => Critical(slot) }

  /** Critical slots below tier 0 in priority: the ones that may overrun. */
  function LateCriticalSlot(): Slot -> bool { (slot: Slot) => slot.isCritical && slot.tier != 0 }

  /** Which items of a slot are kept and which are dropped; `blocked` when a critical negation does not fit. */
  datatype SlotFit = SlotFit(blocked: bool, kept: seq<SlotItem>, dropped: seq<SlotItem>)

  /** The items of a slot, taken one by one from the last: `used` tokens are spent in earlier slots. */
  function FitSlot(slot: Slot, count: nat, used: int, available: int): SlotFit
    requires count <= |slot.items|
  {
    if count == 0 then SlotFit(false, [], [])
    else
      var earlier, item := FitSlot(slot, count - 1, used, available), slot.items[count - 1];
      if earlier.blocked then earlier
      else if !Critical(slot)
              && (used + Tokens(earlier.kept) + item.tokens > available
                  || Tokens(earlier.kept) + item.tokens > slot.maxTokens)
      then
        if item.criticalNegation then earlier.(blocked := true)
        else earlier.(dropped := earlier.dropped + [item])
      else earlier.(kept := earlier.kept + [item])
  }

  function WholeFit(slot: Slot, used: int, available: int): SlotFit {
    FitSlot(slot, |slot.items|, used, available)
  }

  /** The greedy fit of the first `count` slots. */
  datatype Fit = Fit(blocked: bool, fits: seq<SlotFit>, used: int)

  function FitSlots(slots: seq<Slot>, count: nat, available: int): Fit
    requires count <= |slots|
  {
    if count == 0 then Fit(false, [], 0)
    else
      var earlier := FitSlots(slots, count - 1, available);
      if earlier.blocked then earlier
      else
        var fit := WholeFit(slots[count - 1], earlier.used, available);
        if fit.blocked then earlier.(blocked := true)
        else Fit(false, earlier.fits + [fit], earlier.used + Tokens(fit.kept))
  }

  function ItemRefs(items: seq<SlotItem>): seq<string> {
    seq(|items|, i requires 0 <= i < |items| => items[i].ref)
  }

  function Outcome(slot: Slot, fit: SlotFit): SlotOutcome {
    SlotOutcome(slot.slotRef, ItemRefs(fit.kept), ItemRefs(fit.dropped), Tokens(fit.kept))
  }

  function Outcomes(slots: seq<Slot>, fits: seq<SlotFit>): seq<SlotOutcome>
    requires |fits| <= |slots|
  {
    seq(|fits|, i requires 0 <= i < |fits| => Outcome(slots[i], fits[i]))
  }

  function Kept(fits: seq<SlotFit>): seq<SlotItem> {
    if fits == [] then [] else Kept(fits[..|fits| - 1]) + fits[|fits| - 1].kept
  }

  function Dropped(fits: seq<SlotFit>): seq<SlotItem> {
    if fits == [] then [] else Dropped(fits[..|fits| - 1]) + fits[|fits| - 1].dropped
  }

  lemma {:induction false} FitSlotsShape(slots: seq<Slot>, count: nat, available: int)
    requires count <= |slots|
    ensures |FitSlots(slots, count, available).fits| <= count
    ensures !FitSlots(slots, count, available).blocked ==> |FitSlots(slots, count, available).fits| == count
  {
    if count > 0 {
      FitSlotsShape(slots, count - 1, available);
    }
  }

  // ---------------------------------------------------------------------
  // The budgeter
  // ---------------------------------------------------------------------

  /** The two settings a budgeter is built with, and what they make of a list of slots. */
  datatype Limits = Limits(criticalReserveTokens: int, baseOverheadTokens: int) {
    function Available(maxTotalTokens: int): int {
      maxTotalTokens - criticalReserveTokens - baseOverheadTokens
    }

    /** What `Budget` returns, as a function of the slots. */
    function Result(slots: seq<Slot>, maxTotalTokens: int): BudgetResult {
      var ordered, available := OrderSlots(slots), Available(maxTotalTokens);
      var before := baseOverheadTokens + TokensOf(ordered, AnySlot());
      if TokensOf(ordered, CriticalSlot()) > available then
        BudgetResult(Some(CriticalSlotsExceedBudget), [], [], before, 0)
      else
        FitSlotsShape(ordered, |ordered|, available);
        var fit := FitSlots(ordered, |ordered|, available);
        if fit.blocked then
          BudgetResult(Some(CriticalNegationWouldBeTruncated), [], [], before, fit.used + baseOverheadTokens)
        else
          BudgetResult(None, Outcomes(ordered, fit.fits), ItemRefs(Dropped(fit.fits)), before,
                       fit.used + baseOverheadTokens)
    }
  }

  class TokenBudgeter {
    const criticalReserveTokens: int
    const baseOverheadTokens: int

    constructor (criticalReserveTokens: int, baseOverheadTokens: int)
      requires criticalReserveTokens >= 0 && baseOverheadTokens >= 0
      ensures this.criticalReserveTokens == criticalReserveTokens
      ensures this.baseOverheadTokens == baseOverheadTokens
    {
      this.criticalReserveTokens := criticalReserveTokens;
      this.baseOverheadTokens := baseOverheadTokens;
    }

    function Settings(): Limits {
      Limits(criticalReserveTokens, baseOverheadTokens)
    }

    method Budget(slots: seq<Slot>, maxTotalTokens: int) returns (result: BudgetResult)
      ensures result == Settings().Result(slots, maxTotalTokens)
    {
      hide FitSlots, FittedTo, OrderSlots, TokensOf, Outcomes, ItemRefs;
      var ordered := OrderedSlots(slots);
      var budgetBefore := baseOverheadTokens + TokensOf(ordered, AnySlot());
      var available := maxTotalTokens - criticalReserveTokens - baseOverheadTokens;
      var criticalTokens := TokensOf(ordered, CriticalSlot());
      if criticalTokens > available {
        return BudgetResult(Some(CriticalSlotsExceedBudget), [], [], budgetBefore, 0);
      }
      var outcomes: seq<SlotOutcome> := [];
      var omissions: seq<string> := [];
      var used := 0;
      FitStarts(ordered, available);
      for s := 0 to |ordered|
        invariant FittedTo(ordered, s, available, outcomes, omissions, used)
      {
        var blocked, kept, dropped, slotTokens := FitItems(ordered[s], used, available);
        SlotsTurn(ordered, s, available, outcomes, omissions, used);
        if blocked {
          return BudgetResult(Some(CriticalNegationWouldBeTruncated), [], [], budgetBefore,
                              used + baseOverheadTokens);
        }
        used := used + slotTokens;
        outcomes := outcomes + [SlotOutcome(ordered[s].slotRef, kept, dropped, slotTokens)];
        omissions := omissions + dropped;
      }
      FitEnds(ordered, available, outcomes, omissions, used);
      return BudgetResult(None, outcomes, omissions, budgetBefore, used + baseOverheadTokens);
    }

    /** The inner loop: one slot's items, until a critical negation does not fit. */
    method FitItems(slot: Slot, used: int, available: int)
      returns (blocked: bool, kept: seq<string>, dropped: seq<string>, slotTokens: int)
      ensures var fit := WholeFit(slot, used, available);
              && blocked == fit.blocked
              && (!blocked ==> SlotOutcome(slot.slotRef, kept, dropped, slotTokens) == Outcome(slot, fit))
    {
      hide FitSlot, SlotFittedTo, Critical;
      var critical := Critical(slot);
      blocked, kept, dropped, slotTokens := false, [], [], 0;
      SlotStarts(slot, used, available);
      for i := 0 to |slot.items|
        invariant !blocked && SlotFittedTo(slot, i, used, available, kept, dropped, slotTokens)
      {
        var item := slot.items[i];
        SlotTurn(slot, i, used, available, kept, dropped, slotTokens);
        if critical {
          kept := kept + [item.ref];
          slotTokens := slotTokens + item.tokens;
          continue;
        }
        if used + slotTokens + item.tokens > available || slotTokens + item.tokens > slot.maxTokens {
          if item.criticalNegation {
            BlockedStays(slot, i + 1, |slot.items|, used, available);
            blocked := true;
            return;
          }
          dropped := dropped + [item.ref];
          continue;
        }
        kept := kept + [item.ref];
        slotTokens := slotTokens + item.tokens;
      }
      SlotEnds(slot, used, available, kept, dropped, slotTokens);
    }

    method OrderedSlots(slots: seq<Slot>) returns (deduped: seq<Slot>)
      ensures deduped == OrderSlots(slots)
    {
      hide FreshItems, Deduped, Refs, FreshTo, DedupedTo;
      var seen: set<string> := {};
      var sorted := Sorted(slots, SlotLe);
      deduped := [];
      DedupeStarts(sorted);
      for s := 0 to |sorted|
        invariant DedupedTo(sorted, s, deduped, seen)
      {
        var slot := sorted[s];
        ghost var before := seen;
        var items: seq<SlotItem> := [];
        FreshStarts(slot.items, seen);
        for i := 0 to |slot.items|
          invariant FreshTo(slot.items, i, before, items, seen)
        {
          var item := slot.items[i];
          FreshTurn(slot.items, i, before, items, seen);
          if item.ref in seen {
            continue;
          }
          seen := seen + {item.ref};
          items := items + [item];
        }
        DedupeTurn(sorted, s, deduped, before, items, seen);
        if items != [] {
          deduped := deduped + [slot.(items := items)];
        }
      }
      DedupeEnds(sorted, deduped, seen);
    }
  }

  // ---------------------------------------------------------------------
  // The deduplication loops
  // ---------------------------------------------------------------------

  ghost predicate FreshTo(all: seq<SlotItem>, i: nat, before: set<string>, items: seq<SlotItem>, seen: set<string>) {
    && i <= |all|
    && items + FreshItems(all[i..], seen) == FreshItems(all, before)
    && seen == before + Refs(all[..i])
  }

  lemma FreshStarts(all: seq<SlotItem>, before: set<string>)
    ensures FreshTo(all, 0, before, [], before)
  {
    assert all[0..] == all;
  }

  lemma FreshTurn(all: seq<SlotItem>, i: nat, before: set<string>, items: seq<SlotItem>, seen: set<string>)
    requires i < |all| && FreshTo(all, i, before, items, seen)
    ensures if all[i].ref in seen then FreshTo(all, i + 1, before, items, seen)
            else FreshTo(all, i + 1, before, items + [all[i]], seen + {all[i].ref})
  {
    assert all[i..][1..] == all[i + 1..];
    assert all[..i + 1] == all[..i] + [all[i]];
    assert Refs(all[..i + 1]) == Refs(all[..i]) + {all[i].ref};
  }

  ghost predicate DedupedTo(sorted: seq<Slot>, s: nat, deduped: seq<Slot>, seen: set<string>) {
    s <= |sorted| && deduped + Deduped(sorted[s..], seen) == Deduped(sorted, {})
  }

  lemma DedupeStarts(sorted: seq<Slot>)
    ensures DedupedTo(sorted, 0, [], {})
  {
    assert sorted[0..] == sorted;
  }

  lemma DedupeTurn(sorted: seq<Slot>, s: nat, deduped: seq<Slot>, before: set<string>,
                   items: seq<SlotItem>, seen: set<string>)
    requires s < |sorted| && DedupedTo(sorted, s, deduped, before)
    requires FreshTo(sorted[s].items, |sorted[s].items|, before, items, seen)
    ensures DedupedTo(sorted, s + 1, if items == [] then deduped else deduped + [sorted[s].(items := items)], seen)
  {
    var all := sorted[s].items;
    assert all[..|all|] == all && all[|all|..] == [];
    assert items + [] == items;
    assert sorted[s..][1..] == sorted[s + 1..];
    var rest := Deduped(sorted[s + 1..], seen);
    assert deduped + ([sorted[s].(items := items)] + rest) == deduped + [sorted[s].(items := items)] + rest;
  }

  lemma DedupeEnds(sorted: seq<Slot>, deduped: seq<Slot>, seen: set<string>)
    requires DedupedTo(sorted, |sorted|, deduped, seen)
    ensures deduped == Deduped(sorted, {})
  {
    assert sorted[|sorted|..] == [];
  }

  // ---------------------------------------------------------------------
  // The two loops
  // ---------------------------------------------------------------------

  /** The inner loop after `i` items. */
  ghost predicate SlotFittedTo(slot: Slot, i: nat, used: int, available: int,
                               kept: seq<string>, dropped: seq<string>, slotTokens: int)
  {
    i <= |slot.items|
    && var fit := FitSlot(slot, i, used, available);
       && !fit.blocked
       && kept == ItemRefs(fit.kept) && dropped == ItemRefs(fit.dropped) && slotTokens == Tokens(fit.kept)
  }

  lemma ItemRefsAppend(items: seq<SlotItem>, item: SlotItem)
    ensures ItemRefs(items + [item]) == ItemRefs(items) + [item.ref]
    ensures Tokens(items + [item]) == Tokens(items) + item.tokens
  {
    TokensConcat(items, [item]);
  }

  lemma {:induction false} TokensConcat(a: seq<SlotItem>, b: seq<SlotItem>)
    ensures Tokens(a + b) == Tokens(a) + Tokens(b)
  {
    if a == [] {
      assert a + b == b;
    } else {
      assert (a + b)[1..] == a[1..] + b;
      TokensConcat(a[1..], b);
    }
  }

  lemma SlotTurn(slot: Slot, i: nat, used: int, available: int,
                 kept: seq<string>, dropped: seq<string>, slotTokens: int)
    requires i < |slot.items| && SlotFittedTo(slot, i, used, available, kept, dropped, slotTokens)
    ensures var item := slot.items[i];
            if !Critical(slot) && (used + slotTokens + item.tokens > available || slotTokens + item.tokens > slot.maxTokens)
            then if item.criticalNegation then FitSlot(slot, i + 1, used, available).blocked
                 else SlotFittedTo(slot, i + 1, used, available, kept, dropped + [item.ref], slotTokens)
            else SlotFittedTo(slot, i + 1, used, available, kept + [item.ref], dropped, slotTokens + item.tokens)
  {
    var fit := FitSlot(slot, i, used, available);
    ItemRefsAppend(fit.kept, slot.items[i]);
    ItemRefsAppend(fit.dropped, slot.items[i]);
  }

  /** The outer loop after `s` slots. */
  ghost predicate FittedTo(ordered: seq<Slot>, s: nat, available: int,
                           outcomes: seq<SlotOutcome>, omissions: seq<string>, used: int)
  {
    s <= |ordered|
    && var fit := FitSlots(ordered, s, available);
       && !fit.blocked && |fit.fits| == s
       && outcomes == Outcomes(ordered, fit.fits) && omissions == ItemRefs(Dropped(fit.fits)) && used == fit.used
  }

  lemma FitStarts(ordered: seq<Slot>, available: int)
    ensures FittedTo(ordered, 0, available, [], [], 0)
  {
  }

  lemma SlotStarts(slot: Slot, used: int, available: int)
    ensures SlotFittedTo(slot, 0, used, available, [], [], 0)
  {
  }

  lemma SlotEnds(slot: Slot, used: int, available: int, kept: seq<string>, dropped: seq<string>, slotTokens: int)
    requires SlotFittedTo(slot, |slot.items|, used, available, kept, dropped, slotTokens)
    ensures !WholeFit(slot, used, available).blocked
    ensures SlotOutcome(slot.slotRef, kept, dropped, slotTokens) == Outcome(slot, WholeFit(slot, used, available))
  {
  }

  lemma SlotsTurn(ordered: seq<Slot>, s: nat, available: int,
                  outcomes: seq<SlotOutcome>, omissions: seq<string>, used: int)
    requires s < |ordered| && FittedTo(ordered, s, available, outcomes, omissions, used)
    ensures var fit, whole := WholeFit(ordered[s], used, available), FitSlots(ordered, |ordered|, available);
            if fit.blocked then whole.blocked && whole.used == used
            else FittedTo(ordered, s + 1, available, outcomes + [Outcome(ordered[s], fit)],
                          omissions + Outcome(ordered[s], fit).dropped, used + Outcome(ordered[s], fit).tokens)
  {
    var fits, fit := FitSlots(ordered, s, available).fits, WholeFit(ordered[s], used, available);
    if fit.blocked {
      BlockedSlotsStay(ordered, s + 1, |ordered|, available);
    } else {
      assert (fits + [fit])[..s] == fits;
      assert Outcomes(ordered, fits + [fit]) == Outcomes(ordered, fits) + [Outcome(ordered[s], fit)];
      assert ItemRefs(Dropped(fits) + fit.dropped) == ItemRefs(Dropped(fits)) + ItemRefs(fit.dropped);
    }
  }

  lemma FitEnds(ordered: seq<Slot>, available: int, outcomes: seq<SlotOutcome>, omissions: seq<string>, used: int)
    requires FittedTo(ordered, |ordered|, available, outcomes, omissions, used)
    ensures var fit := FitSlots(ordered, |ordered|, available);
            && !fit.blocked && |fit.fits| <= |ordered|
            && outcomes == Outcomes(ordered, fit.fits) && omissions == ItemRefs(Dropped(fit.fits)) && used == fit.used
  {
  }

  lemma {:induction false} BlockedStays(slot: Slot, i: nat, j: nat, used: int, available: int)
    requires i <= j <= |slot.items| && FitSlot(slot, i, used, available).blocked
    ensures FitSlot(slot, j, used, available).blocked
    decreases j
  {
    if i < j {
      BlockedStays(slot, i, j - 1, used, available);
    }
  }

  lemma {:induction false} BlockedSlotsStay(ordered: seq<Slot>, s: nat, t: nat, available: int)
    requires s <= t <= |ordered| && FitSlots(ordered, s, available).blocked
    ensures FitSlots(ordered, t, available) == FitSlots(ordered, s, available)
    decreases t
  {
    if s < t {
      BlockedSlotsStay(ordered, s, t - 1, available);
    }
  }
}
