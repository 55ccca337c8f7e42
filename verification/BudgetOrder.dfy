/** When the order in which slots are given matters to the budget, and when it does not. */
module BudgetOrder {
  import opened Common
  import opened Sorting
  import opened TokenBudgeter
  import opened BudgetLaws

  /** With distinct (tier, ref) keys the whole result, failures included, ignores the input order. */
  lemma BudgetIgnoresInputOrder(limits: Limits, a: seq<Slot>, b: seq<Slot>, maxTotalTokens: int)
    requires multiset(a) == multiset(b)
    requires forall x <- a, y <- a | x.tier == y.tier && x.slotRef == y.slotRef :: x == y
    ensures limits.Result(a, maxTotalTokens) == limits.Result(b, maxTotalTokens)
  {
    hide KeyOrder, FitSlots, TokensOf, Outcomes, Deduped, StringLe;
    SlotOrder();
    assert DistinctKeys(multiset(a), SlotLe) by {
      forall x <- multiset(a), y <- multiset(a) | SlotLe(x, y) && SlotLe(y, x) ensures x == y {
        StringLeTotal(x.slotRef, y.slotRef);
        assert x in a && y in a;
      }
    }
    SortedOrderIndependent(a, b, SlotLe);
  }

  /** A slot of one optional, unflagged item. */
  predicate OneOptionalItem(slot: Slot) {
    !Critical(slot) && OneUnflaggedItem(slot)
  }

  predicate OneUnflaggedItem(slot: Slot) {
    |slot.items| == 1 && !slot.items[0].criticalNegation
  }

  predicate SameKey(a: Slot, b: Slot) {
    a.tier == b.tier && a.slotRef == b.slotRef
  }

  /** Slots with one key keep their input order. */
  lemma SameKeyKeepsOrder(a: Slot, b: Slot)
    requires SameKey(a, b) && |a.items| == 1 && |b.items| == 1 && a.items[0].ref != b.items[0].ref
    ensures OrderSlots([a, b]) == [a, b]
  {
    StringLeTotal(a.slotRef, b.slotRef);
    SortedPair(a, b);
    hide Sorted, Deduped;
    DedupedPair(a, b);
  }

  /** The fit of one item: all of it or nothing, with the branch's own condition. */
  lemma OneItemFit(slot: Slot, used: int, available: int)
    requires OneUnflaggedItem(slot)
    ensures var tokens := slot.items[0].tokens;
            WholeFit(slot, used, available) ==
            if Critical(slot) || (used + tokens <= available && tokens <= slot.maxTokens)
            then SlotFit(false, slot.items, []) else SlotFit(false, [], slot.items)
    ensures Tokens(slot.items) == slot.items[0].tokens
  {
    assert FitSlot(slot, 0, used, available) == SlotFit(false, [], []);
    assert [] + [slot.items[0]] == slot.items;
  }

  lemma PairFit(a: Slot, b: Slot, available: int)
    requires OneUnflaggedItem(a) && OneUnflaggedItem(b)
    ensures var first := WholeFit(a, 0, available);
            FitSlots([a, b], 2, available) ==
            Fit(false, [first, WholeFit(b, Tokens(first.kept), available)],
                Tokens(first.kept) + Tokens(WholeFit(b, Tokens(first.kept), available).kept))
  {
    var first := WholeFit(a, 0, available);
    OneItemFit(a, 0, available);
    OneItemFit(b, Tokens(first.kept), available);
    hide WholeFit;
    assert FitSlots([a, b], 0, available) == Fit(false, [], 0);
    assert [] + [first] == [first];
    assert FitSlots([a, b], 1, available) == Fit(false, [first], Tokens(first.kept));
  }

  lemma PairTokens(a: Slot, b: Slot, counts: Slot -> bool)
    ensures TokensOf([a, b], counts) ==
            (if counts(a) then Tokens(a.items) else 0) + (if counts(b) then Tokens(b.items) else 0)
  {
    assert [a, b][1..] == [b] && [b][1..] == [];
    assert TokensOf([b], counts) == if counts(b) then Tokens(b.items) else 0;
  }

  lemma OutcomesOfPair(a: Slot, b: Slot, f: SlotFit, g: SlotFit)
    ensures Outcomes([a, b], [f, g]) == [Outcome(a, f), Outcome(b, g)]
    ensures Dropped([f, g]) == f.dropped + g.dropped
  {
    assert [f, g][..1] == [f] && [f][..0] == [];
    assert Dropped([]) == [] && [] + f.dropped == f.dropped;
  }

  /** What a pair of slots that share a key comes to, in the order given. */
  lemma SameKeyResult(limits: Limits, a: Slot, b: Slot, maxTotalTokens: int)
    requires SameKey(a, b) && OneUnflaggedItem(a) && OneUnflaggedItem(b) && a.items[0].ref != b.items[0].ref
    ensures var result, available := limits.Result([a, b], maxTotalTokens), limits.Available(maxTotalTokens);
            var critical := (if Critical(a) then a.items[0].tokens else 0) + (if Critical(b) then b.items[0].tokens else 0);
            var first := WholeFit(a, 0, available);
            var second := WholeFit(b, Tokens(first.kept), available);
            && result.budgetBefore == limits.baseOverheadTokens + a.items[0].tokens + b.items[0].tokens
            && if critical > available
               then result == BudgetResult(Some(CriticalSlotsExceedBudget), [], [], result.budgetBefore, 0)
               else result == BudgetResult(None, [Outcome(a, first), Outcome(b, second)],
                                           ItemRefs(first.dropped + second.dropped), result.budgetBefore,
                                           limits.baseOverheadTokens + Tokens(first.kept) + Tokens(second.kept))
  {
    var available := limits.Available(maxTotalTokens);
    var first := WholeFit(a, 0, available);
    SameKeyKeepsOrder(a, b);
    OneItemFit(a, 0, available);
    OneItemFit(b, Tokens(first.kept), available);
    PairFit(a, b, available);
    PairTokens(a, b, AnySlot());
    PairTokens(a, b, CriticalSlot());
    OutcomesOfPair(a, b, first, WholeFit(b, Tokens(first.kept), available));
    hide OrderSlots, FitSlots, WholeFit, TokensOf, Outcomes, Dropped, Critical, ItemRefs, Outcome, Tokens;
  }

  /**
   * With equal keys the slot given first is served first: of two optional items that fit one at a
   * time but not together, it is the first slot's that is kept and the other's that is omitted.
   */
  lemma EqualKeysDependOnInputOrder(limits: Limits, a: Slot, b: Slot, maxTotalTokens: int)
    requires SameKey(a, b) && OneOptionalItem(a) && OneOptionalItem(b) && a.items[0].ref != b.items[0].ref
    requires var available := limits.Available(maxTotalTokens);
             && 0 <= a.items[0].tokens <= available && a.items[0].tokens <= a.maxTokens
             && 0 <= b.items[0].tokens <= available && b.items[0].tokens <= b.maxTokens
             && a.items[0].tokens + b.items[0].tokens > available
    ensures var ab, ba := limits.Result([a, b], maxTotalTokens), limits.Result([b, a], maxTotalTokens);
            && ab.failure == None && KeptRefs(ab.fitted) == [a.items[0].ref] && ab.omissions == [b.items[0].ref]
            && ba.failure == None && KeptRefs(ba.fitted) == [b.items[0].ref] && ba.omissions == [a.items[0].ref]
  {
    FirstIsServed(limits, a, b, maxTotalTokens);
    FirstIsServed(limits, b, a, maxTotalTokens);
  }

  lemma FirstIsServed(limits: Limits, a: Slot, b: Slot, maxTotalTokens: int)
    requires SameKey(a, b) && OneOptionalItem(a) && OneOptionalItem(b) && a.items[0].ref != b.items[0].ref
    requires var available := limits.Available(maxTotalTokens);
             && 0 <= a.items[0].tokens <= available && a.items[0].tokens <= a.maxTokens
             && a.items[0].tokens + b.items[0].tokens > available
    ensures var ab := limits.Result([a, b], maxTotalTokens);
            ab.failure == None && KeptRefs(ab.fitted) == [a.items[0].ref] && ab.omissions == [b.items[0].ref]
  {
    var available := limits.Available(maxTotalTokens);
    SameKeyResult(limits, a, b, maxTotalTokens);
    OneItemFit(a, 0, available);
    OneItemFit(b, a.items[0].tokens, available);
    hide WholeFit, OrderSlots, FitSlots, TokensOf;
    assert Tokens([]) == 0;
    assert [] + b.items == b.items;
    var kept := Outcome(a, SlotFit(false, a.items, []));
    var left := Outcome(b, SlotFit(false, [], b.items));
    assert kept.kept == [a.items[0].ref] && left.kept == [];
    assert [kept, left][..1] == [kept] && [kept][..0] == [] && KeptRefs([]) == [];
    assert [] + [a.items[0].ref] == [a.items[0].ref] && [a.items[0].ref] + [] == [a.items[0].ref];
    assert ItemRefs(b.items) == [b.items[0].ref];
  }

  // ---------------------------------------------------------------------
  // Slots that share no ref
  // ---------------------------------------------------------------------

  predicate Apart(a: Slot, b: Slot) {
    Refs(a.items) !! Refs(b.items)
  }

  /** No two slots mention the same ref; one slot may repeat its own. */
  ghost predicate ShareNoRef(slots: seq<Slot>) {
    IsSorted(slots, Apart)
  }

  /** A slot whose items do not repeat a ref. */
  function Thin(slot: Slot): Slot {
    slot.(items := FreshItems(slot.items, {}))
  }

  /** What deduplication makes of slots that share no ref. */
  function Thinned(slots: seq<Slot>): seq<Slot> {
    if slots == [] then []
    else (if slots[0].items == [] then [] else [Thin(slots[0])]) + Thinned(slots[1..])
  }

  lemma {:induction false} ThinnedConcat(a: seq<Slot>, b: seq<Slot>)
    ensures Thinned(a + b) == Thinned(a) + Thinned(b)
  {
    if a == [] {
      assert a + b == b;
    } else {
      assert (a + b)[1..] == a[1..] + b;
      ThinnedConcat(a[1..], b);
    }
  }

  lemma {:induction false} FreshUnseen(items: seq<SlotItem>, seen: set<string>, more: set<string>)
    requires Refs(items) !! more
    ensures FreshItems(items, seen + more) == FreshItems(items, seen)
  {
    if items != [] {
      assert items[0].ref in Refs(items) && Refs(items[1..]) <= Refs(items);
      FreshUnseen(items[1..], seen, more);
      FreshUnseen(items[1..], seen + {items[0].ref}, more);
      assert seen + more + {items[0].ref} == seen + {items[0].ref} + more;
    }
  }

  lemma FreshNonempty(items: seq<SlotItem>)
    ensures FreshItems(items, {}) == [] <==> items == []
  {
  }

  lemma {:induction false} DedupedThinned(slots: seq<Slot>, seen: set<string>)
    requires ShareNoRef(slots) && forall slot <- slots :: Refs(slot.items) !! seen
    ensures Deduped(slots, seen) == Thinned(slots)
  {
    if slots != [] {
      FreshUnseen(slots[0].items, {}, seen);
      assert {} + seen == seen;
      FreshNonempty(slots[0].items);
      assert ShareNoRef(slots[1..]);
      forall slot <- slots[1..] ensures Refs(slot.items) !! seen + Refs(slots[0].items) {
        assert Apart(slots[0], slot);
      }
      DedupedThinned(slots[1..], seen + Refs(slots[0].items));
    }
  }

  lemma OrderedThinned(slots: seq<Slot>)
    requires ShareNoRef(slots)
    ensures OrderSlots(slots) == Thinned(Sorted(slots, SlotLe)) && ShareNoRef(Sorted(slots, SlotLe))
    ensures multiset(Sorted(slots, SlotLe)) == multiset(slots) && IsSorted(Sorted(slots, SlotLe), SlotLe)
  {
    SlotOrder();
    SortedSorts(slots, SlotLe);
    PairwisePermuted(slots, Sorted(slots, SlotLe), Apart);
    DedupedThinned(Sorted(slots, SlotLe), {});
  }

  lemma ThinnedRemoved(slots: seq<Slot>, i: nat)
    requires i < |slots|
    ensures multiset(Thinned(slots)) == multiset(Thinned(Removed(slots, i))) + multiset(Thinned([slots[i]]))
  {
    hide Thinned;
    assert slots == slots[..i] + ([slots[i]] + slots[i + 1..]);
    ThinnedConcat(slots[..i], [slots[i]] + slots[i + 1..]);
    ThinnedConcat([slots[i]], slots[i + 1..]);
    ThinnedConcat(slots[..i], slots[i + 1..]);
  }

  lemma {:induction false} ThinnedPermutation(a: seq<Slot>, b: seq<Slot>)
    requires multiset(a) == multiset(b)
    ensures multiset(Thinned(a)) == multiset(Thinned(b))
  {
    if a == [] {
      assert |b| == |multiset(b)| == 0;
    } else {
      assert a[0] in multiset(b);
      var i :| 0 <= i < |b| && b[i] == a[0];
      hide Removed, Thinned;
      RemovedMultiset(a, 0);
      RemovedMultiset(b, i);
      RemovedShorter(a, 0);
      ThinnedPermutation(Removed(a, 0), Removed(b, i));
      ThinnedRemoved(a, 0);
      ThinnedRemoved(b, i);
    }
  }

  lemma {:induction false} TokensPermutation(a: seq<Slot>, b: seq<Slot>, counts: Slot -> bool)
    requires multiset(a) == multiset(b)
    ensures TokensOf(a, counts) == TokensOf(b, counts)
  {
    if a == [] {
      assert |b| == |multiset(b)| == 0;
    } else {
      assert a[0] in multiset(b);
      var i :| 0 <= i < |b| && b[i] == a[0];
      hide Removed, TokensOf;
      RemovedMultiset(a, 0);
      RemovedMultiset(b, i);
      RemovedShorter(a, 0);
      TokensPermutation(Removed(a, 0), Removed(b, i), counts);
      TokensRemoved(a, 0, counts);
      TokensRemoved(b, i, counts);
    }
  }

  lemma TokensRemoved(slots: seq<Slot>, i: nat, counts: Slot -> bool)
    requires i < |slots|
    ensures TokensOf(slots, counts) == TokensOf(Removed(slots, i), counts)
                                       + if counts(slots[i]) then Tokens(slots[i].items) else 0
  {
    SumSplit(slots, i, counts);
    SumSplit(Removed(slots, i), i, counts);
    assert Removed(slots, i)[..i] == slots[..i] && Removed(slots, i)[i..] == slots[i + 1..];
    assert slots[i..][0] == slots[i] && slots[i..][1..] == slots[i + 1..];
  }

  // ---------------------------------------------------------------------
  // The exact condition
  // ---------------------------------------------------------------------

  ghost predicate NothingFlagged(slots: seq<Slot>) {
    forall slot <- slots :: NoNegation(slot.items)
  }

  /** Every permutation of the slots comes to the same result. */
  ghost predicate OrderIsIrrelevant(limits: Limits, slots: seq<Slot>, maxTotalTokens: int) {
    forall p: seq<Slot> | multiset(p) == multiset(slots) ::
      limits.Result(p, maxTotalTokens) == limits.Result(slots, maxTotalTokens)
  }

  predicate KeysDiffer(slots: seq<Slot>) {
    forall i, j | 0 <= i < j < |slots| && slots[i].items != [] && slots[j].items != [] :: !SameKey(slots[i], slots[j])
  }

  /**
   * For slots that share no ref and flag no item, the order given is irrelevant exactly when no two
   * slots with items share a key, or the critical tokens exceed what is available.
   */
  lemma EqualKeysMatterExactly(limits: Limits, slots: seq<Slot>, maxTotalTokens: int)
    requires ShareNoRef(slots) && NothingFlagged(slots)
    ensures OrderIsIrrelevant(limits, slots, maxTotalTokens) <==>
            KeysDiffer(slots) || TokensOf(OrderSlots(slots), CriticalSlot()) > limits.Available(maxTotalTokens)
  {
    if KeysDiffer(slots) || TokensOf(OrderSlots(slots), CriticalSlot()) > limits.Available(maxTotalTokens) {
      hide OrderSlots, ShareNoRef, NothingFlagged, KeysDiffer;
      forall p: seq<Slot> | multiset(p) == multiset(slots)
        ensures limits.Result(p, maxTotalTokens) == limits.Result(slots, maxTotalTokens)
      {
        PermutedResult(limits, slots, p, maxTotalTokens);
      }
    } else {
      var p := SwapMatters(limits, slots, maxTotalTokens);
    }
  }

  lemma PermutedResult(limits: Limits, slots: seq<Slot>, p: seq<Slot>, maxTotalTokens: int)
    requires ShareNoRef(slots) && multiset(p) == multiset(slots)
    requires KeysDiffer(slots) || TokensOf(OrderSlots(slots), CriticalSlot()) > limits.Available(maxTotalTokens)
    ensures limits.Result(p, maxTotalTokens) == limits.Result(slots, maxTotalTokens)
  {
    hide OrderSlots, ShareNoRef, KeysDiffer, TokensOf, FitSlots, Outcomes, Dropped;
    OrderedPermutation(slots, p);
    if KeysDiffer(slots) {
      OneOrder(slots, p);
    } else {
      TokensPermutation(OrderSlots(p), OrderSlots(slots), CriticalSlot());
      TokensPermutation(OrderSlots(p), OrderSlots(slots), AnySlot());
    }
  }

  lemma OrderedPermutation(slots: seq<Slot>, p: seq<Slot>)
    requires ShareNoRef(slots) && multiset(p) == multiset(slots)
    ensures ShareNoRef(p) && multiset(OrderSlots(p)) == multiset(OrderSlots(slots))
  {
    PairwisePermuted(slots, p, Apart);
    hide IsSorted, Apart, Thinned;
    OrderedThinned(slots);
    OrderedThinned(p);
    hide Sorted, OrderSlots;
    ThinnedPermutation(Sorted(p, SlotLe), Sorted(slots, SlotLe));
  }

  /** With different keys every permutation is brought into one order. */
  lemma OneOrder(slots: seq<Slot>, p: seq<Slot>)
    requires ShareNoRef(slots) && ShareNoRef(p) && KeysDiffer(slots)
    requires multiset(OrderSlots(p)) == multiset(OrderSlots(slots))
    ensures OrderSlots(p) == OrderSlots(slots)
  {
    SlotOrder();
    hide Sorted, Thinned, KeysDiffer, ShareNoRef, IsSorted, DistinctKeys, KeyOrder, Deduped;
    OrderedThinned(slots);
    OrderedThinned(p);
    ThinnedSorted(Sorted(p, SlotLe));
    ThinnedSorted(Sorted(slots, SlotLe));
    ThinnedKeys(slots, Sorted(slots, SlotLe));
    SortedUnique(OrderSlots(p), OrderSlots(slots), SlotLe);
  }

  lemma {:induction false} ThinnedFrom(slots: seq<Slot>)
    ensures forall d <- Thinned(slots) :: exists s <- slots :: s.items != [] && d == Thin(s)
  {
    if slots != [] {
      ThinnedFrom(slots[1..]);
      forall d <- Thinned(slots) ensures exists s <- slots :: s.items != [] && d == Thin(s) {
        if d in Thinned(slots[1..]) {
          var s :| s in slots[1..] && s.items != [] && d == Thin(s);
          assert s in slots;
        } else {
          assert slots[0] in slots;
        }
      }
    }
  }

  lemma {:induction false} ThinnedSorted(slots: seq<Slot>)
    requires IsSorted(slots, SlotLe)
    ensures IsSorted(Thinned(slots), SlotLe)
  {
    if slots != [] {
      assert IsSorted(slots[1..], SlotLe);
      ThinnedSorted(slots[1..]);
      ThinnedFrom(slots[1..]);
      hide Thinned;
      forall d <- Thinned(slots[1..]) ensures SlotLe(Thin(slots[0]), d) {
        var s :| s in slots[1..] && s.items != [] && d == Thin(s);
      }
    }
  }

  /** With different keys the deduplicated slots have different keys too. */
  lemma ThinnedKeys(slots: seq<Slot>, sorted: seq<Slot>)
    requires KeysDiffer(slots) && multiset(sorted) == multiset(slots)
    ensures DistinctKeys(multiset(Thinned(sorted)), SlotLe)
  {
    hide Thinned, KeysDiffer, FreshItems;
    ThinnedFrom(sorted);
    forall a <- multiset(Thinned(sorted)), b <- multiset(Thinned(sorted)) | SlotLe(a, b) && SlotLe(b, a) ensures a == b {
      assert a in Thinned(sorted) && b in Thinned(sorted);
      var s :| s in sorted && s.items != [] && a == Thin(s);
      var t :| t in sorted && t.items != [] && b == Thin(t);
      StringLeTotal(a.slotRef, b.slotRef);
      OneSlotPerKey(slots, sorted, s, t);
    }
  }

  lemma OneSlotPerKey(slots: seq<Slot>, sorted: seq<Slot>, s: Slot, t: Slot)
    requires KeysDiffer(slots) && multiset(sorted) == multiset(slots)
    requires s in sorted && t in sorted && s.items != [] && t.items != [] && SameKey(s, t)
    ensures s == t
  {
    assert s in multiset(sorted) && t in multiset(sorted);
    assert s in slots && t in slots;
  }

  // ---------------------------------------------------------------------
  // Swapping two slots with one key
  // ---------------------------------------------------------------------

  function Swapped<T>(s: seq<T>, i: nat, j: nat): seq<T>
    requires i < j < |s|
  {
    s[i := s[j]][j := s[i]]
  }

  /** Two slots with one key, swapped in the sorted list, are served in the other order. */
  lemma SwapMatters(limits: Limits, slots: seq<Slot>, maxTotalTokens: int) returns (p: seq<Slot>)
    requires ShareNoRef(slots) && NothingFlagged(slots) && !KeysDiffer(slots)
    requires TokensOf(OrderSlots(slots), CriticalSlot()) <= limits.Available(maxTotalTokens)
    ensures multiset(p) == multiset(slots)
    ensures limits.Result(p, maxTotalTokens) != limits.Result(slots, maxTotalTokens)
  {
    hide Thinned, KeysDiffer, Swapped, IsSorted, Apart, NothingFlagged, OrderSlots, Sorted, TokensOf;
    var sorted := Sorted(slots, SlotLe);
    OrderedThinned(slots);
    var i, j := SortedClash(slots, sorted);
    p := Swapped(sorted, i, j);
    SwappedSorted(sorted, i, j);
    SlotOrder();
    SortedFixpoint(p, SlotLe);
    OrderedPermutation(slots, p);
    OrderedThinned(p);
    TokensPermutation(OrderSlots(p), OrderSlots(slots), CriticalSlot());
    var k := SwappedThinned(sorted, i, j);
    SamePermutedFlags(slots, sorted);
    SamePermutedFlags(slots, p);
    ThinnedUnflagged(sorted);
    ThinnedUnflagged(p);
    ThinApart(sorted, i, j);
    hide *;
    DifferentOutcomes(limits, slots, p, maxTotalTokens, k);
  }

  lemma ThinApart(sorted: seq<Slot>, i: nat, j: nat)
    requires ShareNoRef(sorted) && i < j < |sorted| && sorted[i].items != []
    ensures Apart(Thin(sorted[i]), Thin(sorted[j])) && Thin(sorted[i]).items != []
  {
    assert Apart(sorted[i], sorted[j]);
    FreshSubset(sorted[i].items, {});
    FreshSubset(sorted[j].items, {});
    assert Refs(Thin(sorted[i]).items) <= Refs(sorted[i].items) && Refs(Thin(sorted[j]).items) <= Refs(sorted[j].items);
    FreshNonempty(sorted[i].items);
  }

  lemma SamePermutedFlags(a: seq<Slot>, b: seq<Slot>)
    requires multiset(a) == multiset(b) && NothingFlagged(a)
    ensures NothingFlagged(b)
  {
    forall slot <- b ensures NoNegation(slot.items) {
      assert slot in multiset(a);
    }
  }

  lemma ThinnedUnflagged(slots: seq<Slot>)
    requires NothingFlagged(slots)
    ensures NothingFlagged(Thinned(slots))
  {
    ThinnedFrom(slots);
    forall d <- Thinned(slots) ensures NoNegation(d.items) {
      var s :| s in slots && s.items != [] && d == Thin(s);
      FreshSubset(s.items, {});
    }
  }

  /** Two slots with items and one key have two places in the sorted list. */
  lemma SortedClash(slots: seq<Slot>, sorted: seq<Slot>) returns (i: nat, j: nat)
    requires ShareNoRef(slots) && !KeysDiffer(slots) && multiset(sorted) == multiset(slots)
    ensures i < j < |sorted| && SameKey(sorted[i], sorted[j]) && sorted[i].items != [] && sorted[j].items != []
  {
    var a, b :| 0 <= a < b < |slots| && slots[a].items != [] && slots[b].items != [] && SameKey(slots[a], slots[b]);
    assert Apart(slots[a], slots[b]);
    assert slots[a].items[0].ref in Refs(slots[a].items);
    assert slots[a] in multiset(sorted) && slots[b] in multiset(sorted);
    var k :| 0 <= k < |sorted| && sorted[k] == slots[a];
    var l :| 0 <= l < |sorted| && sorted[l] == slots[b];
    i, j := if k < l then k else l, if k < l then l else k;
  }

  lemma SwappedSorted(sorted: seq<Slot>, i: nat, j: nat)
    requires i < j < |sorted| && SameKey(sorted[i], sorted[j]) && IsSorted(sorted, SlotLe)
    ensures IsSorted(Swapped(sorted, i, j), SlotLe) && multiset(Swapped(sorted, i, j)) == multiset(sorted)
  {
    var p := Swapped(sorted, i, j);
    SlotOrder();
    assert forall k | 0 <= k < |p| :: SameKey(p[k], sorted[k]);
    forall k, l | 0 <= k < l < |p| ensures SlotLe(p[k], p[l]) {
      assert SlotLe(sorted[k], sorted[l]);
    }
  }

  /** After deduplication the swapped slots stand in each other's place. */
  lemma SwappedThinned(sorted: seq<Slot>, i: nat, j: nat) returns (k: nat)
    requires i < j < |sorted| && sorted[i].items != [] && sorted[j].items != []
    ensures k < |Thinned(sorted)| && Thinned(sorted)[k] == Thin(sorted[i])
    ensures k < |Thinned(Swapped(sorted, i, j))| && Thinned(Swapped(sorted, i, j))[k] == Thin(sorted[j])
  {
    k := |Thinned(sorted[..i])|;
    var p := Swapped(sorted, i, j);
    assert sorted == sorted[..i] + sorted[i..] && p == sorted[..i] + p[i..];
    ThinnedConcat(sorted[..i], sorted[i..]);
    ThinnedConcat(sorted[..i], p[i..]);
    assert sorted[i..][0] == sorted[i] && p[i..][0] == sorted[j];
  }

  /** Results whose deduplicated slots differ in their refs at one place are different. */
  lemma DifferentOutcomes(limits: Limits, a: seq<Slot>, b: seq<Slot>, maxTotalTokens: int, k: nat)
    requires NothingFlagged(OrderSlots(a)) && NothingFlagged(OrderSlots(b))
    requires TokensOf(OrderSlots(a), CriticalSlot()) <= limits.Available(maxTotalTokens)
    requires TokensOf(OrderSlots(b), CriticalSlot()) <= limits.Available(maxTotalTokens)
    requires k < |OrderSlots(a)| && k < |OrderSlots(b)| && Apart(OrderSlots(a)[k], OrderSlots(b)[k])
    requires OrderSlots(a)[k].items != []
    ensures limits.Result(a, maxTotalTokens) != limits.Result(b, maxTotalTokens)
  {
    hide OrderSlots, TokensOf, NothingFlagged;
    var available := limits.Available(maxTotalTokens);
    NeverBlocked(OrderSlots(a), |OrderSlots(a)|, available);
    NeverBlocked(OrderSlots(b), |OrderSlots(b)|, available);
    SuccessIsFit(limits, a, maxTotalTokens);
    SuccessIsFit(limits, b, maxTotalTokens);
    FittedNames(OrderSlots(a), available, k);
    FittedNames(OrderSlots(b), available, k);
    hide FitSlots;
    var x, y := OrderSlots(a)[k], OrderSlots(b)[k];
    if limits.Result(a, maxTotalTokens).fitted[k] == limits.Result(b, maxTotalTokens).fitted[k] {
      assert ItemRefs(x.items)[0] in multiset(ItemRefs(y.items));
      var l :| 0 <= l < |y.items| && ItemRefs(y.items)[l] == x.items[0].ref;
      RefOf(x.items, 0);
      RefOf(y.items, l);
    }
  }

  lemma RefOf(items: seq<SlotItem>, i: nat)
    requires i < |items|
    ensures items[i].ref in Refs(items)
  {
  }

  /** The refs kept and dropped in a fitted slot are those of its items. */
  lemma FittedNames(slots: seq<Slot>, available: int, k: nat)
    requires !FitSlots(slots, |slots|, available).blocked && k < |slots|
    ensures |FitSlots(slots, |slots|, available).fits| == |slots|
    ensures var outcome := Outcomes(slots, FitSlots(slots, |slots|, available).fits)[k];
            multiset(outcome.kept) + multiset(outcome.dropped) == multiset(ItemRefs(slots[k].items))
  {
    FitSlotsShape(slots, |slots|, available);
    FitSplitsAt(slots, |slots|, available, k);
    var fit := FitSlots(slots, |slots|, available).fits[k];
    hide FitSlots;
    ItemRefsMultiset(fit.kept, fit.dropped, slots[k].items);
  }

  lemma {:induction false} FitSplitsAt(slots: seq<Slot>, count: nat, available: int, k: nat)
    requires k < count <= |slots| && !FitSlots(slots, count, available).blocked
    ensures |FitSlots(slots, count, available).fits| == count
    ensures var fit := FitSlots(slots, count, available).fits[k];
            Splits(fit.kept, fit.dropped, slots[k].items)
  {
    FitSlotsShape(slots, count, available);
    var earlier := FitSlots(slots, count - 1, available);
    hide WholeFit, Splits;
    if k == count - 1 {
      FitSlotsShape(slots, k, available);
      WholeFitFacts(slots[k], earlier.used, available);
    } else {
      FitSplitsAt(slots, count - 1, available, k);
    }
  }

  lemma {:induction false} NeverBlocked(slots: seq<Slot>, count: nat, available: int)
    requires count <= |slots| && NothingFlagged(slots)
    ensures !FitSlots(slots, count, available).blocked
  {
    if count > 0 {
      NeverBlocked(slots, count - 1, available);
      SlotNeverBlocked(slots[count - 1], |slots[count - 1].items|, FitSlots(slots, count - 1, available).used, available);
    }
  }

  lemma {:induction false} SlotNeverBlocked(slot: Slot, count: nat, used: int, available: int)
    requires count <= |slot.items| && NoNegation(slot.items)
    ensures !FitSlot(slot, count, used, available).blocked
  {
    if count > 0 {
      SlotNeverBlocked(slot, count - 1, used, available);
    }
  }
}
