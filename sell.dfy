/** Selling duplicate unstackable items out of a storage network: of every
    item type one item is kept, chosen by the sell option, and the other
    copies are sold for coins and withdrawn from their storage units. */
module Sell {
  import opened Common

  // ---------------------------------------------------------------------
  // Items, sell options and selectors
  // ---------------------------------------------------------------------

  const SellNoPrefixItems: int := 0
  const SellAllExceptMostExpensive: int := 1
  const SellAllExceptLeastExpensive: int := 2

  predicate ValidOption(sellOption: int)
  {
    sellOption == SellNoPrefixItems || sellOption == SellAllExceptMostExpensive || sellOption == SellAllExceptLeastExpensive
  }

  /** What the selling logic reads of a stored item. */
  datatype SaleItem = SaleItem(itemType: int, isAir: bool, maxStack: int, prefix: int, value: int)

  /** A stored item together with its storage unit and its index there. */
  datatype Sourced = Sourced(unit: nat, indexInSource: nat, item: SaleItem)

  /** The item kept for one type and the copies marked for sale. */
  datatype DuplicateContext = DuplicateContext(keep: Sourced, duplicates: seq<Sourced>)

  /** The duplicates dictionary: a context per item type, and the types in
      the order they were first seen (the dictionary's enumeration order). */
  datatype Selection = Selection(contexts: map<int, DuplicateContext>, order: seq<int>)

  /** What a selector decided about `check` against the current `keep`:
      whether `check` is sold, whether the two were swapped, and the two
      items after the swap. */
  datatype Verdict = Verdict(sell: bool, swapped: bool, keep: Sourced, check: Sourced)

  /** Only unstackable, non-empty items take part. */
  predicate Eligible(item: SaleItem)
  {
    !item.isAir && item.maxStack <= 1
  }

  /** Sells a copy exactly when it has no prefix; never swaps. */
  function SellNoPrefix(keep: Sourced, check: Sourced): (v: Verdict)
    ensures !v.swapped && v.keep == keep && v.check == check
    ensures v.sell <==> check.item.prefix == 0
  {
    Verdict(check.item.prefix == 0, false, keep, check)
  }

  /** Always sells one of the two; keeps the strictly more valuable. */
  function SellExceptMostExpensive(keep: Sourced, check: Sourced): (v: Verdict)
    ensures v.sell
    ensures v.swapped <==> check.item.value > keep.item.value
    ensures v.keep.item.value >= keep.item.value && v.keep.item.value >= check.item.value
    ensures v.swapped ==> v.keep == check && v.check == keep
    ensures !v.swapped ==> v.keep == keep && v.check == check
  {
    if check.item.value > keep.item.value then Verdict(true, true, check, keep)
    else Verdict(true, false, keep, check)
  }

  /** Always sells one of the two; keeps the strictly less valuable. */
  function SellExceptLeastExpensive(keep: Sourced, check: Sourced): (v: Verdict)
    ensures v.sell
    ensures v.swapped <==> check.item.value < keep.item.value
    ensures v.keep.item.value <= keep.item.value && v.keep.item.value <= check.item.value
    ensures v.swapped ==> v.keep == check && v.check == keep
    ensures !v.swapped ==> v.keep == keep && v.check == check
  {
    if check.item.value < keep.item.value then Verdict(true, true, check, keep)
    else Verdict(true, false, keep, check)
  }

  /** The selector of a valid sell option. */
  function Evaluate(sellOption: int, keep: Sourced, check: Sourced): Verdict
    requires ValidOption(sellOption)
  {
    if sellOption == SellNoPrefixItems then SellNoPrefix(keep, check)
    else if sellOption == SellAllExceptMostExpensive then SellExceptMostExpensive(keep, check)
    else SellExceptLeastExpensive(keep, check)
  }

  /** The list without the first occurrence of `x`, if any. */
  function Remove(s: seq<Sourced>, x: Sourced): seq<Sourced>
    decreases |s|
  {
    if s == [] then []
    else if s[0] == x then s[1..]
    else [s[0]] + Remove(s[1..], x)
  }

  /** Removing an item takes one copy of it out of the list, and removing an
      absent item changes nothing. */
  lemma {:induction false} RemoveCount(s: seq<Sourced>, x: Sourced)
    ensures x !in s ==> Remove(s, x) == s
    ensures x in s ==> multiset(Remove(s, x)) == multiset(s) - multiset{x}
    decreases |s|
  {
    if s != [] {
      assert s == [s[0]] + s[1..];
      if s[0] != x {
        RemoveCount(s[1..], x);
      }
    }
  }

  // ---------------------------------------------------------------------
  // The items of a storage network
  // ---------------------------------------------------------------------

  /** The items of unit `unit`, each with its index. */
  function UnitItems(unit: nat, items: seq<SaleItem>): seq<Sourced>
  {
    seq(|items|, k requires 0 <= k < |items| => Sourced(unit, k, items[k]))
  }

  /** The items of all units, unit by unit. */
  function AllItems(stores: seq<seq<SaleItem>>): seq<Sourced>
    decreases |stores|
  {
    if stores == [] then [] else AllItems(stores[..|stores| - 1]) + UnitItems(|stores| - 1, stores[|stores| - 1])
  }

  ghost predicate NoRepeats<T>(s: seq<T>)
  {
    forall i, j :: 0 <= i < j < |s| ==> s[i] != s[j]
  }

  /** `s` names an item of the network by its unit and index. */
  ghost predicate FromStores(stores: seq<seq<SaleItem>>, s: Sourced)
  {
    s.unit < |stores| && s.indexInSource < |stores[s.unit]| && stores[s.unit][s.indexInSource] == s.item
  }

  /** Every enumerated item is the item at its unit and index, and no
      position is enumerated twice. */
  lemma {:induction false} AllItemsSound(stores: seq<seq<SaleItem>>)
    ensures forall s :: s in AllItems(stores) ==> FromStores(stores, s)
    ensures NoRepeats(AllItems(stores))
    decreases |stores|
  {
    if stores != [] {
      var n := |stores| - 1;
      var front, last := AllItems(stores[..n]), UnitItems(n, stores[n]);
      AllItemsSound(stores[..n]);
      assert forall s :: s in front ==> s.unit < n && FromStores(stores, s) by {
        forall s | s in front ensures s.unit < n && FromStores(stores, s) {
          assert FromStores(stores[..n], s);
          assert stores[..n][s.unit] == stores[s.unit];
        }
      }
      assert forall k :: 0 <= k < |last| ==> last[k].unit == n && last[k].indexInSource == k;
      var all := front + last;
      forall i, j | 0 <= i < j < |all| ensures all[i] != all[j] {
        if j < |front| {
          assert all[i] == front[i] && all[j] == front[j];
        } else if i < |front| {
          assert all[i] == front[i] && all[j] == last[j - |front|];
          assert all[i] in front;
        } else {
          assert all[i] == last[i - |front|] && all[j] == last[j - |front|];
        }
      }
    }
  }

  // ---------------------------------------------------------------------
  // Choosing the duplicates
  // ---------------------------------------------------------------------

  /** A copy strictly equal to the keep, judged by the selector: the keep
      after a possible swap, and the duplicates with the sold item appended.
      After a swap the new keep is taken out of the duplicates first. */
  function Judge(sellOption: int, context: DuplicateContext, s: Sourced): DuplicateContext
    requires ValidOption(sellOption)
  {
    var v := Evaluate(sellOption, context.keep, s);
    var duplicates :=
      if !v.sell then context.duplicates
      else (if v.swapped then Remove(context.duplicates, v.keep) else context.duplicates) + [v.check];
    DuplicateContext(v.keep, duplicates)
  }

  /** One step of the duplicate filter: an eligible item of an unseen type
      becomes that type's keep; one strictly equal to the keep is judged. */
  function Consider(sel: Selection, sellOption: int, strictlyEqual: (SaleItem, SaleItem) -> bool, s: Sourced): Selection
    requires ValidOption(sellOption)
  {
    var t := s.item.itemType;
    if !Eligible(s.item) then sel
    else if t !in sel.contexts then Selection(sel.contexts[t := DuplicateContext(s, [])], sel.order + [t])
    else if !strictlyEqual(sel.contexts[t].keep.item, s.item) then sel
    else Selection(sel.contexts[t := Judge(sellOption, sel.contexts[t], s)], sel.order)
  }

  /** The duplicate filter run over `items` in order, from `sel`. */
  function SelectAll(sel: Selection, sellOption: int, strictlyEqual: (SaleItem, SaleItem) -> bool, items: seq<Sourced>): Selection
    requires ValidOption(sellOption)
    decreases |items|
  {
    if items == [] then sel else SelectAll(Consider(sel, sellOption, strictlyEqual, items[0]), sellOption, strictlyEqual, items[1..])
  }

  /** How the kept item of a type ranks against a copy sold under the sell
      option: a sold copy has no prefix, is worth no more than the keep, or
      is worth no less than the keep. */
  predicate Ranked(sellOption: int, keep: Sourced, d: Sourced)
  {
    && (sellOption == SellNoPrefixItems ==> d.item.prefix == 0)
    && (sellOption == SellAllExceptMostExpensive ==> d.item.value <= keep.item.value)
    && (sellOption == SellAllExceptLeastExpensive ==> d.item.value >= keep.item.value)
  }

  /** The context of type `t` holds distinct eligible items of type `t`
      taken from `seen`, the keep is not among the duplicates, and every
      duplicate ranks below the keep. */
  ghost predicate BlockOk(sellOption: int, seen: seq<Sourced>, t: int, context: DuplicateContext)
  {
    && Eligible(context.keep.item) && context.keep.item.itemType == t && context.keep in seen
    && context.keep !in context.duplicates && NoRepeats(context.duplicates)
    && forall d :: d in context.duplicates ==>
         Eligible(d.item) && d.item.itemType == t && d in seen && Ranked(sellOption, context.keep, d)
  }

  /** Every listed type has a context. */
  ghost predicate Keyed(contexts: map<int, DuplicateContext>, order: seq<int>)
  {
    forall i :: 0 <= i < |order| ==> order[i] in contexts
  }

  /** The dictionary after filtering `seen`: its keys are the types in
      `order`, once each, and every context is consistent. */
  ghost predicate Consistent(sel: Selection, sellOption: int, seen: seq<Sourced>)
  {
    && Keyed(sel.contexts, sel.order)
    && (forall t :: t in sel.contexts ==> t in sel.order)
    && NoRepeats(sel.order)
    && (forall t :: t in sel.contexts ==> BlockOk(sellOption, seen, t, sel.contexts[t]))
  }

  /** Judging a new copy keeps the context consistent. */
  lemma JudgeKeeps(sellOption: int, seen: seq<Sourced>, t: int, context: DuplicateContext, s: Sourced)
    requires ValidOption(sellOption) && BlockOk(sellOption, seen, t, context)
    requires Eligible(s.item) && s.item.itemType == t && s !in seen
    ensures BlockOk(sellOption, seen + [s], t, Judge(sellOption, context, s))
  {
    var v := Evaluate(sellOption, context.keep, s);
    RemoveCount(context.duplicates, s);
    assert s != context.keep && s !in context.duplicates;
    var d := Judge(sellOption, context, s);
    if v.sell {
      var base := if v.swapped then Remove(context.duplicates, v.keep) else context.duplicates;
      assert base == context.duplicates;
      assert d.duplicates == context.duplicates + [v.check];
      assert NoRepeats(d.duplicates) by {
        forall i, j | 0 <= i < j < |d.duplicates| ensures d.duplicates[i] != d.duplicates[j] {
          if j == |context.duplicates| {
            assert d.duplicates[i] == context.duplicates[i];
            assert context.duplicates[i] in context.duplicates;
          } else {
            assert d.duplicates[i] == context.duplicates[i] && d.duplicates[j] == context.duplicates[j];
          }
        }
      }
    }
  }

  /** One filter step keeps the dictionary consistent. */
  lemma {:induction false} ConsiderKeeps(sel: Selection, sellOption: int, strictlyEqual: (SaleItem, SaleItem) -> bool,
                                         seen: seq<Sourced>, s: Sourced)
    requires ValidOption(sellOption) && Consistent(sel, sellOption, seen) && s !in seen
    ensures Consistent(Consider(sel, sellOption, strictlyEqual, s), sellOption, seen + [s])
  {
    var t := s.item.itemType;
    var sel' := Consider(sel, sellOption, strictlyEqual, s);
    forall u, c | u in sel.contexts && c == sel.contexts[u] && BlockOk(sellOption, seen, u, c)
      ensures BlockOk(sellOption, seen + [s], u, c)
    {
    }
    if !Eligible(s.item) || (t in sel.contexts && !strictlyEqual(sel.contexts[t].keep.item, s.item)) {
      assert sel' == sel;
    } else if t !in sel.contexts {
      assert NoRepeats(sel'.order) by {
        assert forall i :: 0 <= i < |sel.order| ==> sel'.order[i] == sel.order[i];
      }
    } else {
      JudgeKeeps(sellOption, seen, t, sel.contexts[t], s);
    }
  }

  /** The whole filter keeps the dictionary consistent. */
  lemma {:induction false} SelectAllKeeps(sel: Selection, sellOption: int, strictlyEqual: (SaleItem, SaleItem) -> bool,
                                          seen: seq<Sourced>, items: seq<Sourced>)
    requires ValidOption(sellOption) && Consistent(sel, sellOption, seen) && NoRepeats(seen + items)
    ensures Consistent(SelectAll(sel, sellOption, strictlyEqual, items), sellOption, seen + items)
    decreases |items|
  {
    if items != [] {
      var all := seen + items;
      assert items[0] !in seen by {
        forall i | 0 <= i < |seen| ensures seen[i] != items[0] {
          assert all[i] == seen[i] && all[|seen|] == items[0];
        }
      }
      ConsiderKeeps(sel, sellOption, strictlyEqual, seen, items[0]);
      assert all == (seen + [items[0]]) + items[1..];
      SelectAllKeeps(Consider(sel, sellOption, strictlyEqual, items[0]), sellOption, strictlyEqual, seen + [items[0]], items[1..]);
    }
  }

  /** The dictionary a whole network filters into. */
  function Selected(stores: seq<seq<SaleItem>>, sellOption: int, strictlyEqual: (SaleItem, SaleItem) -> bool): Selection
    requires ValidOption(sellOption)
  {
    SelectAll(Selection(map[], []), sellOption, strictlyEqual, AllItems(stores))
  }

  /** Filtering a whole network leaves a consistent dictionary. */
  lemma SelectedConsistent(stores: seq<seq<SaleItem>>, sellOption: int, strictlyEqual: (SaleItem, SaleItem) -> bool)
    requires ValidOption(sellOption)
    ensures Consistent(Selected(stores, sellOption, strictlyEqual), sellOption, AllItems(stores))
  {
    AllItemsSound(stores);
    assert [] + AllItems(stores) == AllItems(stores);
    SelectAllKeeps(Selection(map[], []), sellOption, strictlyEqual, [], AllItems(stores));
  }

  // ---------------------------------------------------------------------
  // What the filter gathers for each type
  // ---------------------------------------------------------------------

  /** `s` is an eligible item of type `t`. */
  predicate OfType(s: Sourced, t: int)
  {
    Eligible(s.item) && s.item.itemType == t
  }

  /** The first eligible item of type `t` in `items`. */
  ghost function FirstOfType(items: seq<Sourced>, t: int): (r: Option<Sourced>)
    ensures r.None? <==> forall k :: 0 <= k < |items| ==> !OfType(items[k], t)
    ensures r.Some? ==> OfType(r.value, t)
    ensures r.Some? ==>
      exists k :: 0 <= k < |items| && items[k] == r.value &&
                  forall j :: 0 <= j < k ==> !OfType(items[j], t)
    decreases |items|
  {
    if items == [] then None
    else
      var n := |items| - 1;
      var f := FirstOfType(items[..n], t);
      assert forall k :: 0 <= k < n ==> items[..n][k] == items[k];
      if f.None? && OfType(items[n], t) then Some(items[n])
      else
        assert f.Some? ==> exists k :: 0 <= k < |items| && items[k] == f.value &&
                                       forall j :: 0 <= j < k ==> !OfType(items[j], t) by {
          if f.Some? {
            var k :| 0 <= k < n && items[..n][k] == f.value && forall j :: 0 <= j < k ==> !OfType(items[..n][j], t);
            assert items[k] == f.value;
          }
        }
        f
  }

  /** `s` is a copy of `first`: another eligible item of its type, strictly
      equal to it. */
  predicate Copy(first: Sourced, s: Sourced, strictlyEqual: (SaleItem, SaleItem) -> bool)
  {
    OfType(s, first.item.itemType) && s != first && strictlyEqual(first.item, s.item)
  }

  /** The copies of `first` in `items`, in order. */
  ghost function Copies(items: seq<Sourced>, first: Sourced, strictlyEqual: (SaleItem, SaleItem) -> bool): (r: seq<Sourced>)
    ensures forall s :: s in r <==> s in items && Copy(first, s, strictlyEqual)
    decreases |items|
  {
    if items == [] then []
    else
      var n := |items| - 1;
      assert items == items[..n] + [items[n]];
      Copies(items[..n], first, strictlyEqual) + (if Copy(first, items[n], strictlyEqual) then [items[n]] else [])
  }

  /** The copies of `first` in `items` without a prefix, in order. */
  ghost function PlainCopies(items: seq<Sourced>, first: Sourced, strictlyEqual: (SaleItem, SaleItem) -> bool): (r: seq<Sourced>)
    ensures forall s :: s in r <==> s in items && Copy(first, s, strictlyEqual) && s.item.prefix == 0
    decreases |items|
  {
    if items == [] then []
    else
      var n := |items| - 1;
      assert items == items[..n] + [items[n]];
      PlainCopies(items[..n], first, strictlyEqual) +
        (if Copy(first, items[n], strictlyEqual) && items[n].item.prefix == 0 then [items[n]] else [])
  }

  /** `strictlyEqual` is symmetric and transitive, as an equality of items
      should be. */
  ghost predicate Equivalence(strictlyEqual: (SaleItem, SaleItem) -> bool)
  {
    && (forall a, b :: strictlyEqual(a, b) ==> strictlyEqual(b, a))
    && (forall a, b, c :: strictlyEqual(a, b) && strictlyEqual(b, c) ==> strictlyEqual(a, c))
  }

  /** Under the value options, `a` is worth strictly more (most expensive
      kept) or strictly less (least expensive kept) than `b`: the condition
      on which the selector swaps `b` out for `a`. */
  predicate Outranks(sellOption: int, a: Sourced, b: Sourced)
  {
    && (sellOption == SellAllExceptMostExpensive ==> a.item.value > b.item.value)
    && (sellOption == SellAllExceptLeastExpensive ==> a.item.value < b.item.value)
  }

  /** The class of `first` in `seen`: `first` followed by its copies, in the
      order the filter reads them. */
  ghost function Class(seen: seq<Sourced>, first: Sourced, strictlyEqual: (SaleItem, SaleItem) -> bool): seq<Sourced>
  {
    [first] + Copies(seen, first, strictlyEqual)
  }

  /** `keep` is the first item of `cls` of the greatest (most expensive
      option) or least (least expensive option) value: it ranks at least as
      high as every member, and strictly higher than every member read
      before it. */
  ghost predicate FirstPreferred(sellOption: int, cls: seq<Sourced>, keep: Sourced)
  {
    && (forall j :: 0 <= j < |cls| ==> Ranked(sellOption, keep, cls[j]))
    && (forall j, k :: 0 <= j < k < |cls| && cls[k] == keep ==> Outranks(sellOption, keep, cls[j]))
  }

  /** What a type's context holds after filtering `seen`, whose first
      eligible item of the type is `first`: under the no-prefix option the
      keep is `first` and the duplicates are its copies without a prefix, in
      order; under the other options the keep and the duplicates are, between
      them, `first` and its copies, and the keep is the first of them of the
      greatest (least) value. */
  ghost predicate GatheredFor(sellOption: int, strictlyEqual: (SaleItem, SaleItem) -> bool, seen: seq<Sourced>,
                              first: Sourced, context: DuplicateContext)
  {
    if sellOption == SellNoPrefixItems then
      context.keep == first && context.duplicates == PlainCopies(seen, first, strictlyEqual)
    else
      && multiset(context.duplicates) + multiset{context.keep} == multiset(Copies(seen, first, strictlyEqual)) + multiset{first}
      && FirstPreferred(sellOption, Class(seen, first, strictlyEqual), context.keep)
  }

  /** Judging one more member of a class under a value option keeps the
      keep the first member of the greatest (least) value: the selector
      swaps only on a strictly better value. */
  lemma PreferredStep(sellOption: int, cls: seq<Sourced>, keep: Sourced, s: Sourced)
    requires sellOption == SellAllExceptMostExpensive || sellOption == SellAllExceptLeastExpensive
    requires FirstPreferred(sellOption, cls, keep) && keep in cls && s !in cls
    ensures FirstPreferred(sellOption, cls + [s], Evaluate(sellOption, keep, s).keep)
  {
    var v := Evaluate(sellOption, keep, s);
    var c := cls + [s];
    forall j, k | 0 <= j < k < |c| && c[k] == v.keep ensures Outranks(sellOption, v.keep, c[j]) {
      assert c[j] == cls[j];
      if v.swapped {
        assert c[k] !in cls;
        assert Ranked(sellOption, keep, cls[j]);
      } else {
        assert c[k] == cls[k];
      }
    }
    forall j | 0 <= j < |c| ensures Ranked(sellOption, v.keep, c[j]) {
      if j < |cls| {
        assert c[j] == cls[j];
        assert Ranked(sellOption, keep, cls[j]);
      }
    }
  }

  /** The dictionary after filtering `seen` has a context exactly for the
      types with an eligible item, gathered from the first such item. */
  ghost predicate Gathered(sel: Selection, sellOption: int, strictlyEqual: (SaleItem, SaleItem) -> bool, seen: seq<Sourced>)
  {
    && (forall t :: t in sel.contexts <==> FirstOfType(seen, t).Some?)
    && (forall t :: t in sel.contexts ==>
          GatheredFor(sellOption, strictlyEqual, seen, FirstOfType(seen, t).value, sel.contexts[t]))
  }

  lemma {:induction false} FirstOfTypeSnoc(seen: seq<Sourced>, s: Sourced, t: int)
    ensures FirstOfType(seen + [s], t) ==
      if FirstOfType(seen, t).None? && OfType(s, t) then Some(s) else FirstOfType(seen, t)
  {
    assert (seen + [s])[..|seen|] == seen;
  }

  lemma {:induction false} CopiesSnoc(seen: seq<Sourced>, s: Sourced, first: Sourced, strictlyEqual: (SaleItem, SaleItem) -> bool)
    ensures Copies(seen + [s], first, strictlyEqual) ==
      Copies(seen, first, strictlyEqual) + (if Copy(first, s, strictlyEqual) then [s] else [])
    ensures PlainCopies(seen + [s], first, strictlyEqual) ==
      PlainCopies(seen, first, strictlyEqual) + (if Copy(first, s, strictlyEqual) && s.item.prefix == 0 then [s] else [])
  {
    assert (seen + [s])[..|seen|] == seen;
  }

  /** A context of a type that `s` does not belong to, or that `s` is not
      a copy of, is gathered alike after `s`. */
  lemma {:induction false} GatheredForSkip(sellOption: int, strictlyEqual: (SaleItem, SaleItem) -> bool, seen: seq<Sourced>,
                                           s: Sourced, first: Sourced, context: DuplicateContext)
    requires GatheredFor(sellOption, strictlyEqual, seen, first, context) && !Copy(first, s, strictlyEqual)
    ensures GatheredFor(sellOption, strictlyEqual, seen + [s], first, context)
  {
    CopiesSnoc(seen, s, first, strictlyEqual);
    assert Copies(seen + [s], first, strictlyEqual) == Copies(seen, first, strictlyEqual);
    assert Class(seen + [s], first, strictlyEqual) == Class(seen, first, strictlyEqual);
  }

  /** Under the value options the keep of a gathered context is `first` or
      a copy of it. */
  lemma {:induction false} KeepInClass(sellOption: int, strictlyEqual: (SaleItem, SaleItem) -> bool, seen: seq<Sourced>,
                                       first: Sourced, context: DuplicateContext)
    requires sellOption != SellNoPrefixItems && GatheredFor(sellOption, strictlyEqual, seen, first, context)
    ensures context.keep == first || Copy(first, context.keep, strictlyEqual)
  {
    assert context.keep in multiset(context.duplicates) + multiset{context.keep};
    assert context.keep in multiset(Copies(seen, first, strictlyEqual)) + multiset{first};
  }

  /** Judging a copy strictly equal to the keep adds it to what the context
      gathered. */
  lemma {:induction false} JudgeGathers(sellOption: int, strictlyEqual: (SaleItem, SaleItem) -> bool, seen: seq<Sourced>,
                                        t: int, first: Sourced, context: DuplicateContext, s: Sourced)
    requires ValidOption(sellOption) && (sellOption == SellNoPrefixItems || Equivalence(strictlyEqual))
    requires BlockOk(sellOption, seen, t, context) && GatheredFor(sellOption, strictlyEqual, seen, first, context)
    requires first in seen && OfType(first, t) && OfType(s, t) && s !in seen
    requires strictlyEqual(context.keep.item, s.item)
    ensures GatheredFor(sellOption, strictlyEqual, seen + [s], first, Judge(sellOption, context, s))
  {
    if sellOption == SellNoPrefixItems {
      JudgePlainGathers(strictlyEqual, seen, t, first, context, s);
    } else {
      JudgeValueGathers(sellOption, strictlyEqual, seen, t, first, context, s);
    }
  }

  /** The no-prefix case of `JudgeGathers`. */
  lemma JudgePlainGathers(strictlyEqual: (SaleItem, SaleItem) -> bool, seen: seq<Sourced>,
                          t: int, first: Sourced, context: DuplicateContext, s: Sourced)
    requires GatheredFor(SellNoPrefixItems, strictlyEqual, seen, first, context)
    requires first in seen && OfType(first, t) && OfType(s, t) && s !in seen
    requires strictlyEqual(context.keep.item, s.item)
    ensures GatheredFor(SellNoPrefixItems, strictlyEqual, seen + [s], first, Judge(SellNoPrefixItems, context, s))
  {
    CopiesSnoc(seen, s, first, strictlyEqual);
    assert Copy(first, s, strictlyEqual);
  }

  /** The value-option case of `JudgeGathers`. */
  lemma JudgeValueGathers(sellOption: int, strictlyEqual: (SaleItem, SaleItem) -> bool, seen: seq<Sourced>,
                          t: int, first: Sourced, context: DuplicateContext, s: Sourced)
    requires sellOption == SellAllExceptMostExpensive || sellOption == SellAllExceptLeastExpensive
    requires Equivalence(strictlyEqual)
    requires BlockOk(sellOption, seen, t, context) && GatheredFor(sellOption, strictlyEqual, seen, first, context)
    requires first in seen && OfType(first, t) && OfType(s, t) && s !in seen
    requires strictlyEqual(context.keep.item, s.item)
    ensures GatheredFor(sellOption, strictlyEqual, seen + [s], first, Judge(sellOption, context, s))
  {
    CopiesSnoc(seen, s, first, strictlyEqual);
    KeepInClass(sellOption, strictlyEqual, seen, first, context);
    assert Copy(first, s, strictlyEqual);
    JudgeCounts(sellOption, context, s);
    JudgeRanks(sellOption, strictlyEqual, seen, first, context, s);
  }

  /** Under a value option, judging a new item moves it into the context:
      between them the keep and the duplicates gain exactly that item. */
  lemma JudgeCounts(sellOption: int, context: DuplicateContext, s: Sourced)
    requires sellOption == SellAllExceptMostExpensive || sellOption == SellAllExceptLeastExpensive
    requires s != context.keep && s !in context.duplicates
    ensures var j := Judge(sellOption, context, s);
      multiset(j.duplicates) + multiset{j.keep} == multiset(context.duplicates) + multiset{context.keep} + multiset{s}
  {
    RemoveCount(context.duplicates, s);
  }

  /** Judging a copy under a value option keeps the keep the first member
      of the greatest (least) value of the class. */
  lemma JudgeRanks(sellOption: int, strictlyEqual: (SaleItem, SaleItem) -> bool, seen: seq<Sourced>,
                   first: Sourced, context: DuplicateContext, s: Sourced)
    requires sellOption == SellAllExceptMostExpensive || sellOption == SellAllExceptLeastExpensive
    requires GatheredFor(sellOption, strictlyEqual, seen, first, context)
    requires first in seen && s !in seen && Copy(first, s, strictlyEqual)
    ensures FirstPreferred(sellOption, Class(seen + [s], first, strictlyEqual), Judge(sellOption, context, s).keep)
  {
    CopiesSnoc(seen, s, first, strictlyEqual);
    var cls := Class(seen, first, strictlyEqual);
    assert Class(seen + [s], first, strictlyEqual) == cls + [s];
    assert context.keep in cls by {
      assert context.keep in multiset(Copies(seen, first, strictlyEqual)) + multiset{first};
    }
    PreferredStep(sellOption, cls, context.keep, s);
  }

  /** The contexts of the types other than that of `s` stay gathered
      after `s`, and so does that type's context when `s` is not a copy of
      its first item. */
  lemma {:induction false} OthersGathered(sel: Selection, sellOption: int, strictlyEqual: (SaleItem, SaleItem) -> bool,
                                          seen: seq<Sourced>, s: Sourced)
    requires Gathered(sel, sellOption, strictlyEqual, seen)
    ensures forall u ::
      FirstOfType(seen + [s], u) == if FirstOfType(seen, u).None? && OfType(s, u) then Some(s) else FirstOfType(seen, u)
    ensures forall u :: u in sel.contexts && !Copy(FirstOfType(seen, u).value, s, strictlyEqual) ==>
      GatheredFor(sellOption, strictlyEqual, seen + [s], FirstOfType(seen, u).value, sel.contexts[u])
  {
    forall u ensures FirstOfType(seen + [s], u) ==
                     if FirstOfType(seen, u).None? && OfType(s, u) then Some(s) else FirstOfType(seen, u) {
      FirstOfTypeSnoc(seen, s, u);
    }
    forall u | u in sel.contexts && !Copy(FirstOfType(seen, u).value, s, strictlyEqual)
      ensures GatheredFor(sellOption, strictlyEqual, seen + [s], FirstOfType(seen, u).value, sel.contexts[u])
    {
      GatheredForSkip(sellOption, strictlyEqual, seen, s, FirstOfType(seen, u).value, sel.contexts[u]);
    }
  }

  /** An item that is not a copy of the first item of its type leaves the
      dictionary gathered. */
  lemma {:induction false} SkipGathers(sel: Selection, sellOption: int, strictlyEqual: (SaleItem, SaleItem) -> bool,
                                       seen: seq<Sourced>, s: Sourced)
    requires Gathered(sel, sellOption, strictlyEqual, seen)
    requires OfType(s, s.item.itemType) ==> s.item.itemType in sel.contexts
    requires s.item.itemType in sel.contexts ==> !Copy(FirstOfType(seen, s.item.itemType).value, s, strictlyEqual)
    ensures Gathered(sel, sellOption, strictlyEqual, seen + [s])
  {
    OthersGathered(sel, sellOption, strictlyEqual, seen, s);
  }

  /** An eligible item of a type not seen yet becomes its keep, with no
      duplicates. */
  lemma {:induction false} NewTypeGathers(sel: Selection, sellOption: int, strictlyEqual: (SaleItem, SaleItem) -> bool,
                                          seen: seq<Sourced>, s: Sourced)
    requires Gathered(sel, sellOption, strictlyEqual, seen)
    requires Eligible(s.item) && s.item.itemType !in sel.contexts
    ensures Gathered(Selection(sel.contexts[s.item.itemType := DuplicateContext(s, [])], sel.order + [s.item.itemType]),
                     sellOption, strictlyEqual, seen + [s])
  {
    var t := s.item.itemType;
    NewTypeGatheredFor(sellOption, strictlyEqual, seen, s);
    var contexts := sel.contexts[t := DuplicateContext(s, [])];
    forall u ensures u in contexts <==> FirstOfType(seen + [s], u).Some? {
      FirstOfTypeSnoc(seen, s, u);
    }
    forall u | u in contexts
      ensures GatheredFor(sellOption, strictlyEqual, seen + [s], FirstOfType(seen + [s], u).value, contexts[u])
    {
      FirstOfTypeSnoc(seen, s, u);
      if u != t {
        GatheredForSkip(sellOption, strictlyEqual, seen, s, FirstOfType(seen, u).value, sel.contexts[u]);
      }
    }
  }

  /** The first eligible item of its type, read with nothing of its type
      before it, is gathered as its own keep with no duplicates. */
  lemma NewTypeGatheredFor(sellOption: int, strictlyEqual: (SaleItem, SaleItem) -> bool, seen: seq<Sourced>, s: Sourced)
    requires Eligible(s.item) && FirstOfType(seen, s.item.itemType).None?
    ensures GatheredFor(sellOption, strictlyEqual, seen + [s], s, DuplicateContext(s, []))
  {
    NoCopies(seen, s, strictlyEqual);
    CopiesSnoc(seen, s, s, strictlyEqual);
    if sellOption == SellNoPrefixItems {
      assert PlainCopies(seen + [s], s, strictlyEqual) == [];
    } else {
      assert Copies(seen + [s], s, strictlyEqual) == [];
      assert Class(seen + [s], s, strictlyEqual) == [s];
      assert Ranked(sellOption, s, s);
    }
  }

  /** An item has no copies among items with nothing of its type. */
  lemma {:induction false} NoCopies(items: seq<Sourced>, first: Sourced, strictlyEqual: (SaleItem, SaleItem) -> bool)
    requires forall k :: 0 <= k < |items| ==> !OfType(items[k], first.item.itemType)
    ensures Copies(items, first, strictlyEqual) == [] && PlainCopies(items, first, strictlyEqual) == []
    decreases |items|
  {
    if items != [] {
      var n := |items| - 1;
      assert forall k :: 0 <= k < n ==> items[..n][k] == items[k];
      NoCopies(items[..n], first, strictlyEqual);
    }
  }

  /** Replacing the context of the type of `s` by one gathered after `s`
      leaves the dictionary gathered. */
  lemma {:induction false} ReplaceGathers(sel: Selection, sellOption: int, strictlyEqual: (SaleItem, SaleItem) -> bool,
                                          seen: seq<Sourced>, s: Sourced, context: DuplicateContext)
    requires Gathered(sel, sellOption, strictlyEqual, seen)
    requires Eligible(s.item) && s.item.itemType in sel.contexts
    requires GatheredFor(sellOption, strictlyEqual, seen + [s], FirstOfType(seen, s.item.itemType).value, context)
    ensures Gathered(Selection(sel.contexts[s.item.itemType := context], sel.order), sellOption, strictlyEqual, seen + [s])
  {
    var t := s.item.itemType;
    var contexts := sel.contexts[t := context];
    forall u ensures u in contexts <==> FirstOfType(seen + [s], u).Some? {
      FirstOfTypeSnoc(seen, s, u);
    }
    forall u | u in contexts
      ensures GatheredFor(sellOption, strictlyEqual, seen + [s], FirstOfType(seen + [s], u).value, contexts[u])
    {
      ReplaceGathersAt(sel, sellOption, strictlyEqual, seen, s, context, u);
    }
  }

  /** The case of `ReplaceGathers` for one type `u`. */
  lemma ReplaceGathersAt(sel: Selection, sellOption: int, strictlyEqual: (SaleItem, SaleItem) -> bool,
                         seen: seq<Sourced>, s: Sourced, context: DuplicateContext, u: int)
    requires Gathered(sel, sellOption, strictlyEqual, seen)
    requires Eligible(s.item) && s.item.itemType in sel.contexts
    requires GatheredFor(sellOption, strictlyEqual, seen + [s], FirstOfType(seen, s.item.itemType).value, context)
    requires u in sel.contexts[s.item.itemType := context]
    ensures GatheredFor(sellOption, strictlyEqual, seen + [s], FirstOfType(seen + [s], u).value,
                        sel.contexts[s.item.itemType := context][u])
  {
    FirstOfTypeSnoc(seen, s, u);
    if u != s.item.itemType {
      GatheredForSkip(sellOption, strictlyEqual, seen, s, FirstOfType(seen, u).value, sel.contexts[u]);
    }
  }

  /** A copy strictly equal to the keep of its type is judged into that
      type's context. */
  lemma {:induction false} JudgedGathers(sel: Selection, sellOption: int, strictlyEqual: (SaleItem, SaleItem) -> bool,
                                         seen: seq<Sourced>, s: Sourced)
    requires ValidOption(sellOption) && (sellOption == SellNoPrefixItems || Equivalence(strictlyEqual))
    requires Consistent(sel, sellOption, seen) && Gathered(sel, sellOption, strictlyEqual, seen) && s !in seen
    requires Eligible(s.item) && s.item.itemType in sel.contexts
    requires strictlyEqual(sel.contexts[s.item.itemType].keep.item, s.item)
    ensures Gathered(Selection(sel.contexts[s.item.itemType := Judge(sellOption, sel.contexts[s.item.itemType], s)], sel.order),
                     sellOption, strictlyEqual, seen + [s])
  {
    var t := s.item.itemType;
    var first := FirstOfType(seen, t).value;
    assert first in seen;
    JudgeGathers(sellOption, strictlyEqual, seen, t, first, sel.contexts[t], s);
    ReplaceGathers(sel, sellOption, strictlyEqual, seen, s, Judge(sellOption, sel.contexts[t], s));
  }

  /** One filter step gathers the item it reads. */
  lemma {:induction false} ConsiderGathers(sel: Selection, sellOption: int, strictlyEqual: (SaleItem, SaleItem) -> bool,
                                           seen: seq<Sourced>, s: Sourced)
    requires ValidOption(sellOption) && (sellOption == SellNoPrefixItems || Equivalence(strictlyEqual))
    requires Consistent(sel, sellOption, seen) && Gathered(sel, sellOption, strictlyEqual, seen) && s !in seen
    ensures Gathered(Consider(sel, sellOption, strictlyEqual, s), sellOption, strictlyEqual, seen + [s])
  {
    var t := s.item.itemType;
    if !Eligible(s.item) {
      SkipGathers(sel, sellOption, strictlyEqual, seen, s);
    } else if t !in sel.contexts {
      NewTypeGathers(sel, sellOption, strictlyEqual, seen, s);
    } else if strictlyEqual(sel.contexts[t].keep.item, s.item) {
      JudgedGathers(sel, sellOption, strictlyEqual, seen, s);
    } else {
      var first := FirstOfType(seen, t).value;
      if sellOption != SellNoPrefixItems {
        KeepInClass(sellOption, strictlyEqual, seen, first, sel.contexts[t]);
      }
      SkipGathers(sel, sellOption, strictlyEqual, seen, s);
    }
  }

  /** The whole filter gathers every item it reads. */
  lemma {:induction false} SelectAllGathers(sel: Selection, sellOption: int, strictlyEqual: (SaleItem, SaleItem) -> bool,
                                            seen: seq<Sourced>, items: seq<Sourced>)
    requires ValidOption(sellOption) && (sellOption == SellNoPrefixItems || Equivalence(strictlyEqual))
    requires Consistent(sel, sellOption, seen) && Gathered(sel, sellOption, strictlyEqual, seen)
    requires NoRepeats(seen + items)
    ensures Gathered(SelectAll(sel, sellOption, strictlyEqual, items), sellOption, strictlyEqual, seen + items)
    decreases |items|
  {
    if items == [] {
      assert seen + items == seen;
    } else {
      var all := seen + items;
      assert items[0] !in seen by {
        forall i | 0 <= i < |seen| ensures seen[i] != items[0] {
          assert all[i] == seen[i] && all[|seen|] == items[0];
        }
      }
      ConsiderKeeps(sel, sellOption, strictlyEqual, seen, items[0]);
      ConsiderGathers(sel, sellOption, strictlyEqual, seen, items[0]);
      assert all == (seen + [items[0]]) + items[1..];
      SelectAllGathers(Consider(sel, sellOption, strictlyEqual, items[0]), sellOption, strictlyEqual,
                       seen + [items[0]], items[1..]);
    }
  }

  /** Filtering a whole network gives a context to exactly the types with
      an eligible item, gathered from the first such item: under the
      no-prefix option that item is kept and its copies without a prefix
      are the duplicates; under the value options the keep and the
      duplicates are, between them, that item and all its copies. */
  lemma SelectedGathers(stores: seq<seq<SaleItem>>, sellOption: int, strictlyEqual: (SaleItem, SaleItem) -> bool)
    requires ValidOption(sellOption) && (sellOption == SellNoPrefixItems || Equivalence(strictlyEqual))
    ensures Gathered(Selected(stores, sellOption, strictlyEqual), sellOption, strictlyEqual, AllItems(stores))
  {
    AllItemsSound(stores);
    assert [] + AllItems(stores) == AllItems(stores);
    SelectAllGathers(Selection(map[], []), sellOption, strictlyEqual, [], AllItems(stores));
  }

  /** Every duplicate is strictly equal to the item kept for its type. */
  lemma DuplicatesStrictlyEqual(stores: seq<seq<SaleItem>>, sellOption: int, strictlyEqual: (SaleItem, SaleItem) -> bool, t: int)
    requires ValidOption(sellOption) && (sellOption == SellNoPrefixItems || Equivalence(strictlyEqual))
    requires t in Selected(stores, sellOption, strictlyEqual).contexts
    ensures var context := Selected(stores, sellOption, strictlyEqual).contexts[t];
      forall d :: d in context.duplicates ==> strictlyEqual(context.keep.item, d.item)
  {
    var all := AllItems(stores);
    var context := Selected(stores, sellOption, strictlyEqual).contexts[t];
    SelectedConsistent(stores, sellOption, strictlyEqual);
    SelectedGathers(stores, sellOption, strictlyEqual);
    var first := FirstOfType(all, t).value;
    if sellOption != SellNoPrefixItems {
      KeepInClass(sellOption, strictlyEqual, all, first, context);
      forall d | d in context.duplicates ensures strictlyEqual(context.keep.item, d.item) {
        assert d in multiset(Copies(all, first, strictlyEqual)) + multiset{first};
      }
    }
  }

  /** Two copies read in one order are listed among the copies in that
      order. */
  lemma {:induction false} CopiesOrder(items: seq<Sourced>, first: Sourced, strictlyEqual: (SaleItem, SaleItem) -> bool,
                                       j: nat, k: nat)
    requires j < k < |items| && Copy(first, items[j], strictlyEqual) && Copy(first, items[k], strictlyEqual)
    ensures exists j', k' ::
              && 0 <= j' < k' < |Copies(items, first, strictlyEqual)|
              && Copies(items, first, strictlyEqual)[j'] == items[j] && Copies(items, first, strictlyEqual)[k'] == items[k]
    decreases |items|
  {
    var n := |items| - 1;
    var front := Copies(items[..n], first, strictlyEqual);
    var all := Copies(items, first, strictlyEqual);
    assert all == front + (if Copy(first, items[n], strictlyEqual) then [items[n]] else []);
    assert items[..n][j] == items[j];
    if k < n {
      assert items[..n][k] == items[k];
      CopiesOrder(items[..n], first, strictlyEqual, j, k);
      var j', k' :| 0 <= j' < k' < |front| && front[j'] == items[j] && front[k'] == items[k];
      assert all[j'] == items[j] && all[k'] == items[k];
    } else {
      assert items[j] in front;
      var j' :| 0 <= j' < |front| && front[j'] == items[j];
      assert all[j'] == items[j] && all[|front|] == items[k];
    }
  }

  /** Under a value option, a keep first preferred in the class of `first`
      ranks at least as high as every member of the class read in `seen`. */
  lemma PreferredRanked(sellOption: int, strictlyEqual: (SaleItem, SaleItem) -> bool, seen: seq<Sourced>,
                        first: Sourced, keep: Sourced)
    requires FirstPreferred(sellOption, Class(seen, first, strictlyEqual), keep)
    ensures forall s :: s in seen && (s == first || Copy(first, s, strictlyEqual)) ==> Ranked(sellOption, keep, s)
  {
    var cls := Class(seen, first, strictlyEqual);
    var copies := Copies(seen, first, strictlyEqual);
    forall s | s in seen && (s == first || Copy(first, s, strictlyEqual)) ensures Ranked(sellOption, keep, s) {
      if s == first {
        assert cls[0] == s;
      } else {
        var i :| 0 <= i < |copies| && copies[i] == s;
        assert cls[i + 1] == s;
      }
    }
  }

  /** Under a value option, in a list without repeats whose first item of
      type `t` is `first`, a keep first preferred in the class of `first`
      ranks strictly higher than the member at `j` read before it at `k`. */
  lemma PreferredBefore(sellOption: int, strictlyEqual: (SaleItem, SaleItem) -> bool, seen: seq<Sourced>,
                        t: int, first: Sourced, keep: Sourced, j: nat, k: nat)
    requires NoRepeats(seen) && FirstOfType(seen, t) == Some(first)
    requires keep == first || Copy(first, keep, strictlyEqual)
    requires FirstPreferred(sellOption, Class(seen, first, strictlyEqual), keep)
    requires j < k < |seen| && seen[k] == keep && (seen[j] == first || Copy(first, seen[j], strictlyEqual))
    ensures Outranks(sellOption, keep, seen[j])
  {
    var cls := Class(seen, first, strictlyEqual);
    var copies := Copies(seen, first, strictlyEqual);
    if seen[j] == first {
      var k' :| 0 <= k' < |copies| && copies[k'] == keep;
      assert cls[0] == seen[j] && cls[k' + 1] == keep;
    } else {
      var f :| 0 <= f < |seen| && seen[f] == first && forall i :: 0 <= i < f ==> !OfType(seen[i], t);
      assert keep != first by {
        assert OfType(seen[j], t);
      }
      CopiesOrder(seen, first, strictlyEqual, j, k);
      var j', k' :| 0 <= j' < k' < |copies| && copies[j'] == seen[j] && copies[k'] == seen[k];
      assert cls[j' + 1] == seen[j] && cls[k' + 1] == keep;
    }
  }

  /** `s` is the member of the class of `first` that a value option keeps
      after reading `seen`: it ranks at least as high as every member, and
      strictly higher than every member read before it. */
  ghost predicate Preferred(sellOption: int, strictlyEqual: (SaleItem, SaleItem) -> bool, seen: seq<Sourced>,
                            first: Sourced, s: Sourced)
  {
    && (forall x :: x in seen && (x == first || Copy(first, x, strictlyEqual)) ==> Ranked(sellOption, s, x))
    && (forall j, k :: 0 <= j < k < |seen| && seen[k] == s && (seen[j] == first || Copy(first, seen[j], strictlyEqual)) ==>
          Outranks(sellOption, s, seen[j]))
  }

  /** Under a value option at most one member of a class read without
      repeats is preferred. */
  lemma PreferredUnique(sellOption: int, strictlyEqual: (SaleItem, SaleItem) -> bool, seen: seq<Sourced>,
                        first: Sourced, a: Sourced, b: Sourced)
    requires sellOption == SellAllExceptMostExpensive || sellOption == SellAllExceptLeastExpensive
    requires NoRepeats(seen) && a in seen && b in seen
    requires a == first || Copy(first, a, strictlyEqual)
    requires b == first || Copy(first, b, strictlyEqual)
    requires Preferred(sellOption, strictlyEqual, seen, first, a) && Preferred(sellOption, strictlyEqual, seen, first, b)
    ensures a == b
  {
    var ia :| 0 <= ia < |seen| && seen[ia] == a;
    var ib :| 0 <= ib < |seen| && seen[ib] == b;
    assert ia < ib ==> Outranks(sellOption, b, seen[ia]);
    assert ib < ia ==> Outranks(sellOption, a, seen[ib]);
    assert Ranked(sellOption, a, b) && Ranked(sellOption, b, a);
  }

  /** Under a value option the item kept for a type is the first item of
      its class, in the order the network is read, of the greatest (most
      expensive option) or least (least expensive option) value: it is
      preferred, and no other member of the class is. */
  lemma KeptFirstPreferred(stores: seq<seq<SaleItem>>, sellOption: int, strictlyEqual: (SaleItem, SaleItem) -> bool, t: int)
    requires sellOption == SellAllExceptMostExpensive || sellOption == SellAllExceptLeastExpensive
    requires Equivalence(strictlyEqual) && t in Selected(stores, sellOption, strictlyEqual).contexts
    ensures var all := AllItems(stores);
      var first := FirstOfType(all, t);
      var keep := Selected(stores, sellOption, strictlyEqual).contexts[t].keep;
      && first.Some? && keep in all && (keep == first.value || Copy(first.value, keep, strictlyEqual))
      && forall s :: s in all && (s == first.value || Copy(first.value, s, strictlyEqual)) ==>
           (Preferred(sellOption, strictlyEqual, all, first.value, s) <==> s == keep)
  {
    var all := AllItems(stores);
    var context := Selected(stores, sellOption, strictlyEqual).contexts[t];
    AllItemsSound(stores);
    SelectedConsistent(stores, sellOption, strictlyEqual);
    SelectedGathers(stores, sellOption, strictlyEqual);
    var first := FirstOfType(all, t).value;
    assert BlockOk(sellOption, all, t, context);
    KeepInClass(sellOption, strictlyEqual, all, first, context);
    assert FirstPreferred(sellOption, Class(all, first, strictlyEqual), context.keep);
    OnlyPreferred(sellOption, strictlyEqual, all, t, first, context.keep);
  }

  /** Under a value option, in a list without repeats whose first item of
      type `t` is `first`, the keep first preferred in the class of `first`
      is the one preferred member of the class. */
  lemma OnlyPreferred(sellOption: int, strictlyEqual: (SaleItem, SaleItem) -> bool, seen: seq<Sourced>,
                      t: int, first: Sourced, keep: Sourced)
    requires sellOption == SellAllExceptMostExpensive || sellOption == SellAllExceptLeastExpensive
    requires NoRepeats(seen) && FirstOfType(seen, t) == Some(first) && keep in seen
    requires keep == first || Copy(first, keep, strictlyEqual)
    requires FirstPreferred(sellOption, Class(seen, first, strictlyEqual), keep)
    ensures forall s :: s in seen && (s == first || Copy(first, s, strictlyEqual)) ==>
              (Preferred(sellOption, strictlyEqual, seen, first, s) <==> s == keep)
  {
    PreferredRanked(sellOption, strictlyEqual, seen, first, keep);
    forall j, k | 0 <= j < k < |seen| && seen[k] == keep && (seen[j] == first || Copy(first, seen[j], strictlyEqual))
      ensures Outranks(sellOption, keep, seen[j])
    {
      PreferredBefore(sellOption, strictlyEqual, seen, t, first, keep, j, k);
    }
    forall s | s in seen && (s == first || Copy(first, s, strictlyEqual)) && Preferred(sellOption, strictlyEqual, seen, first, s)
      ensures s == keep
    {
      PreferredUnique(sellOption, strictlyEqual, seen, first, s, keep);
    }
  }

  // ---------------------------------------------------------------------
  // Selling the duplicates
  // ---------------------------------------------------------------------

  /** The duplicates of the types in `order`, type by type. */
  function Candidates(contexts: map<int, DuplicateContext>, order: seq<int>): seq<Sourced>
    requires Keyed(contexts, order)
  {
    if order == [] then []
    else Candidates(contexts, order[..|order| - 1]) + contexts[order[|order| - 1]].duplicates
  }

  /** The candidates are distinct, and each is a duplicate of its own type. */
  lemma {:induction false} CandidatesFacts(contexts: map<int, DuplicateContext>, order: seq<int>, sellOption: int, seen: seq<Sourced>)
    requires Keyed(contexts, order) && NoRepeats(order)
    requires forall i :: 0 <= i < |order| ==> BlockOk(sellOption, seen, order[i], contexts[order[i]])
    ensures NoRepeats(Candidates(contexts, order))
    ensures forall d :: d in Candidates(contexts, order) ==>
      d.item.itemType in order && d in contexts[d.item.itemType].duplicates
  {
    if order != [] {
      var n := |order| - 1;
      var front := order[..n];
      assert forall i :: 0 <= i < n ==> front[i] == order[i] && order[i] != order[n];
      CandidatesFacts(contexts, front, sellOption, seen);
      var a, b := Candidates(contexts, front), contexts[order[n]].duplicates;
      assert BlockOk(sellOption, seen, order[n], contexts[order[n]]);
      forall i, j | 0 <= i < j < |a + b| ensures (a + b)[i] != (a + b)[j] {
        if j < |a| {
          assert (a + b)[i] == a[i] && (a + b)[j] == a[j];
        } else if i < |a| {
          assert (a + b)[i] == a[i] && (a + b)[j] == b[j - |a|];
          assert a[i] in a && b[j - |a|] in b;
        } else {
          assert (a + b)[i] == b[i - |a|] && (a + b)[j] == b[j - |a|];
        }
      }
    }
  }

  /** Coin counts by denomination. */
  datatype Coins = Coins(copper: int, silver: int, gold: int, platinum: int)

  function AddCoins(a: Coins, b: Coins): Coins
  {
    Coins(a.copper + b.copper, a.silver + b.silver, a.gold + b.gold, a.platinum + b.platinum)
  }

  /** The value of a coin count in copper coins. */
  function CopperValue(c: Coins): int
  {
    c.platinum * 1000000 + c.gold * 10000 + c.silver * 100 + c.copper
  }

  /** The indices withdrawn from one storage unit, in the order recorded. */
  datatype Withdrawal = Withdrawal(unit: nat, indices: seq<nat>)

  /** Records index `index` of unit `unit`: appended to the unit's entry,
      or to a new entry at the end when the unit has none yet. */
  function Record(withdrawn: seq<Withdrawal>, unit: nat, index: nat): seq<Withdrawal>
    decreases |withdrawn|
  {
    if withdrawn == [] then [Withdrawal(unit, [index])]
    else if withdrawn[0].unit == unit then [withdrawn[0].(indices := withdrawn[0].indices + [index])] + withdrawn[1..]
    else [withdrawn[0]] + Record(withdrawn[1..], unit, index)
  }

  /** The coins earned and the withdrawals recorded so far. */
  datatype Proceeds = Proceeds(coins: Coins, withdrawn: seq<Withdrawal>)

  /** Sells one candidate, when the game allows it: its value is split into
      coins and its position recorded. */
  function SellStep(p: Proceeds, canSell: SaleItem -> bool, coinsSplit: int -> Coins, s: Sourced): Proceeds
  {
    if !canSell(s.item) then p
    else Proceeds(AddCoins(p.coins, coinsSplit(s.item.value)), Record(p.withdrawn, s.unit, s.indexInSource))
  }

  function SellAll(p: Proceeds, canSell: SaleItem -> bool, coinsSplit: int -> Coins, candidates: seq<Sourced>): Proceeds
    decreases |candidates|
  {
    if candidates == [] then p else SellAll(SellStep(p, canSell, coinsSplit, candidates[0]), canSell, coinsSplit, candidates[1..])
  }

  /** The total copper value of the coins of the candidates that sell. */
  function SoldValue(canSell: SaleItem -> bool, coinsSplit: int -> Coins, candidates: seq<Sourced>): int
    decreases |candidates|
  {
    if candidates == [] then 0
    else (if canSell(candidates[0].item) then CopperValue(coinsSplit(candidates[0].item.value)) else 0)
         + SoldValue(canSell, coinsSplit, candidates[1..])
  }

  /** The indices recorded for unit `unit` (those of its first entry). */
  function IndicesOf(withdrawn: seq<Withdrawal>, unit: nat): seq<nat>
    decreases |withdrawn|
  {
    if withdrawn == [] then []
    else if withdrawn[0].unit == unit then withdrawn[0].indices
    else IndicesOf(withdrawn[1..], unit)
  }

  /** The units that have an entry. */
  function UnitsOf(withdrawn: seq<Withdrawal>): set<nat>
    decreases |withdrawn|
  {
    if withdrawn == [] then {} else {withdrawn[0].unit} + UnitsOf(withdrawn[1..])
  }

  /** Each unit has at most one entry. */
  ghost predicate UnitsDistinct(withdrawn: seq<Withdrawal>)
    decreases |withdrawn|
  {
    withdrawn == [] || (withdrawn[0].unit !in UnitsOf(withdrawn[1..]) && UnitsDistinct(withdrawn[1..]))
  }

  /** Each unit has at most one entry, and no index is recorded twice. */
  ghost predicate WithdrawnOk(withdrawn: seq<Withdrawal>)
  {
    UnitsDistinct(withdrawn) && forall u :: NoRepeats(IndicesOf(withdrawn, u))
  }

  /** Recording appends the index to its unit's indices and to no other's. */
  lemma {:induction false} RecordIndices(withdrawn: seq<Withdrawal>, unit: nat, index: nat)
    ensures forall u :: IndicesOf(Record(withdrawn, unit, index), u) == IndicesOf(withdrawn, u) + (if u == unit then [index] else [])
    ensures UnitsOf(Record(withdrawn, unit, index)) == UnitsOf(withdrawn) + {unit}
    ensures UnitsDistinct(withdrawn) ==> UnitsDistinct(Record(withdrawn, unit, index))
    decreases |withdrawn|
  {
    if withdrawn != [] && withdrawn[0].unit != unit {
      var r := Record(withdrawn, unit, index);
      RecordIndices(withdrawn[1..], unit, index);
      assert r[1..] == Record(withdrawn[1..], unit, index);
    } else if withdrawn != [] {
      var r := Record(withdrawn, unit, index);
      assert r[1..] == withdrawn[1..];
    }
  }

  /** Recording a position not yet recorded keeps the withdrawals well formed. */
  lemma RecordFacts(withdrawn: seq<Withdrawal>, unit: nat, index: nat)
    requires WithdrawnOk(withdrawn) && index !in IndicesOf(withdrawn, unit)
    ensures WithdrawnOk(Record(withdrawn, unit, index))
    ensures forall u :: IndicesOf(Record(withdrawn, unit, index), u) == IndicesOf(withdrawn, u) + (if u == unit then [index] else [])
  {
    RecordIndices(withdrawn, unit, index);
    forall u ensures NoRepeats(IndicesOf(Record(withdrawn, unit, index), u)) {
      var e := IndicesOf(withdrawn, u);
      if u == unit {
        forall i, j | 0 <= i < j < |e + [index]| ensures (e + [index])[i] != (e + [index])[j] {
          assert (e + [index])[i] == e[i];
          if j < |e| {
            assert (e + [index])[j] == e[j];
          }
        }
      } else {
        assert e + [] == e;
      }
    }
  }

  /** The indices of unit `unit` among the candidates that sell, in order. */
  function SoldIndices(canSell: SaleItem -> bool, candidates: seq<Sourced>, unit: nat): seq<nat>
    decreases |candidates|
  {
    if candidates == [] then []
    else (if canSell(candidates[0].item) && candidates[0].unit == unit then [candidates[0].indexInSource] else [])
         + SoldIndices(canSell, candidates[1..], unit)
  }

  /** No two candidates share a unit and an index. */
  ghost predicate PositionsDistinct(candidates: seq<Sourced>)
  {
    forall i, j :: 0 <= i < j < |candidates| ==>
      candidates[i].unit != candidates[j].unit || candidates[i].indexInSource != candidates[j].indexInSource
  }

  /** Selling one candidate not yet recorded records its position only. */
  lemma SellStepFacts(p: Proceeds, canSell: SaleItem -> bool, coinsSplit: int -> Coins, c: Sourced)
    requires WithdrawnOk(p.withdrawn) && c.indexInSource !in IndicesOf(p.withdrawn, c.unit)
    ensures WithdrawnOk(SellStep(p, canSell, coinsSplit, c).withdrawn)
    ensures forall u :: IndicesOf(SellStep(p, canSell, coinsSplit, c).withdrawn, u)
                        == IndicesOf(p.withdrawn, u) + (if canSell(c.item) && u == c.unit then [c.indexInSource] else [])
    ensures UnitsOf(SellStep(p, canSell, coinsSplit, c).withdrawn)
            == UnitsOf(p.withdrawn) + (if canSell(c.item) then {c.unit} else {})
  {
    if canSell(c.item) {
      RecordFacts(p.withdrawn, c.unit, c.indexInSource);
      RecordIndices(p.withdrawn, c.unit, c.indexInSource);
    } else {
      forall u ensures IndicesOf(p.withdrawn, u) + [] == IndicesOf(p.withdrawn, u) { }
    }
  }

  /** Selling the candidates records, unit by unit, exactly the indices of
      those that sell. */
  lemma {:induction false} SellAllFacts(p: Proceeds, canSell: SaleItem -> bool, coinsSplit: int -> Coins, candidates: seq<Sourced>)
    requires WithdrawnOk(p.withdrawn) && PositionsDistinct(candidates)
    requires forall k :: 0 <= k < |candidates| ==> candidates[k].indexInSource !in IndicesOf(p.withdrawn, candidates[k].unit)
    ensures WithdrawnOk(SellAll(p, canSell, coinsSplit, candidates).withdrawn)
    ensures forall u :: IndicesOf(SellAll(p, canSell, coinsSplit, candidates).withdrawn, u)
                        == IndicesOf(p.withdrawn, u) + SoldIndices(canSell, candidates, u)
    ensures forall u :: u in UnitsOf(SellAll(p, canSell, coinsSplit, candidates).withdrawn) ==>
                        u in UnitsOf(p.withdrawn) || SoldIndices(canSell, candidates, u) != []
    decreases |candidates|
  {
    if candidates != [] {
      var c, rest := candidates[0], candidates[1..];
      var p' := SellStep(p, canSell, coinsSplit, c);
      SellStepFacts(p, canSell, coinsSplit, c);
      forall k | 0 <= k < |rest| ensures rest[k].indexInSource !in IndicesOf(p'.withdrawn, rest[k].unit) {
        assert rest[k] == candidates[k + 1];
      }
      assert PositionsDistinct(rest) by {
        forall i, j | 0 <= i < j < |rest|
          ensures rest[i].unit != rest[j].unit || rest[i].indexInSource != rest[j].indexInSource
        {
          assert rest[i] == candidates[i + 1] && rest[j] == candidates[j + 1];
        }
      }
      SellAllFacts(p', canSell, coinsSplit, rest);
      forall u ensures IndicesOf(SellAll(p, canSell, coinsSplit, candidates).withdrawn, u)
                       == IndicesOf(p.withdrawn, u) + SoldIndices(canSell, candidates, u)
      {
        var a := if canSell(c.item) && u == c.unit then [c.indexInSource] else [];
        assert IndicesOf(p.withdrawn, u) + a + SoldIndices(canSell, rest, u)
            == IndicesOf(p.withdrawn, u) + (a + SoldIndices(canSell, rest, u));
      }
    }
  }

  /** The coins earned are worth the coins of the candidates that sell. */
  lemma {:induction false} SellAllCoins(p: Proceeds, canSell: SaleItem -> bool, coinsSplit: int -> Coins, candidates: seq<Sourced>)
    ensures CopperValue(SellAll(p, canSell, coinsSplit, candidates).coins)
            == CopperValue(p.coins) + SoldValue(canSell, coinsSplit, candidates)
    decreases |candidates|
  {
    if candidates != [] {
      SellAllCoins(SellStep(p, canSell, coinsSplit, candidates[0]), canSell, coinsSplit, candidates[1..]);
    }
  }

  /** Starting from no coins, the coins earned are worth the coins of the
      candidates that sell. */
  lemma SellAllCoinsFromZero(p: Proceeds, canSell: SaleItem -> bool, coinsSplit: int -> Coins, candidates: seq<Sourced>)
    requires CopperValue(p.coins) == 0
    ensures CopperValue(SellAll(p, canSell, coinsSplit, candidates).coins) == SoldValue(canSell, coinsSplit, candidates)
  {
    SellAllCoins(p, canSell, coinsSplit, candidates);
  }

  /** With a coin split that gives back the value it splits, the coins
      earned are worth the total value of the items sold. */
  lemma {:induction false} SoldValueExact(canSell: SaleItem -> bool, coinsSplit: int -> Coins, candidates: seq<Sourced>)
    requires forall k :: 0 <= k < |candidates| ==> CopperValue(coinsSplit(candidates[k].item.value)) == candidates[k].item.value
    ensures SoldValue(canSell, coinsSplit, candidates) == ValueSold(canSell, candidates)
    decreases |candidates|
  {
    if candidates != [] {
      assert CopperValue(coinsSplit(candidates[0].item.value)) == candidates[0].item.value;
      assert forall k :: 1 <= k < |candidates| ==> candidates[1..][k - 1] == candidates[k];
      SoldValueExact(canSell, coinsSplit, candidates[1..]);
    }
  }

  /** The total value of the candidates that sell. */
  function ValueSold(canSell: SaleItem -> bool, candidates: seq<Sourced>): int
    decreases |candidates|
  {
    if candidates == [] then 0
    else (if canSell(candidates[0].item) then candidates[0].item.value else 0) + ValueSold(canSell, candidates[1..])
  }

  /** An index is listed for a unit exactly when a candidate at that
      position sells. */
  lemma {:induction false} SoldIndicesMeaning(canSell: SaleItem -> bool, candidates: seq<Sourced>, unit: nat, index: nat)
    ensures index in SoldIndices(canSell, candidates, unit) <==>
      exists k :: 0 <= k < |candidates| && canSell(candidates[k].item)
                  && candidates[k].unit == unit && candidates[k].indexInSource == index
    decreases |candidates|
  {
    if candidates != [] {
      var rest := candidates[1..];
      SoldIndicesMeaning(canSell, rest, unit, index);
      if exists k :: 0 <= k < |candidates| && canSell(candidates[k].item)
                     && candidates[k].unit == unit && candidates[k].indexInSource == index
      {
        var k :| 0 <= k < |candidates| && canSell(candidates[k].item)
                 && candidates[k].unit == unit && candidates[k].indexInSource == index;
        if k > 0 {
          assert rest[k - 1] == candidates[k];
        }
      }
      if exists k :: 0 <= k < |rest| && canSell(rest[k].item) && rest[k].unit == unit && rest[k].indexInSource == index {
        var k :| 0 <= k < |rest| && canSell(rest[k].item) && rest[k].unit == unit && rest[k].indexInSource == index;
        assert candidates[k + 1] == rest[k];
      }
    }
  }

  /** Distinct candidates taken from the network sit at distinct positions. */
  lemma PositionsFromStores(stores: seq<seq<SaleItem>>, candidates: seq<Sourced>)
    requires NoRepeats(candidates) && forall k :: 0 <= k < |candidates| ==> FromStores(stores, candidates[k])
    ensures PositionsDistinct(candidates)
  {
  }

  // ---------------------------------------------------------------------
  // Withdrawing the sold items
  // ---------------------------------------------------------------------

  /** The items of `items`, the first of which sits at index `lo`, whose
      index is not in `removed`, in their order. */
  function Kept(items: seq<SaleItem>, removed: set<nat>, lo: nat): seq<SaleItem>
    decreases |items|
  {
    if items == [] then [] else (if lo in removed then [] else [items[0]]) + Kept(items[1..], removed, lo + 1)
  }

  /** `items` without the items at the indices in `removed`. */
  function Without(items: seq<SaleItem>, removed: set<nat>): seq<SaleItem>
  {
    Kept(items, removed, 0)
  }

  /** No index in range removed: everything is kept. */
  lemma {:induction false} KeptAll(items: seq<SaleItem>, removed: set<nat>, lo: nat)
    requires forall d :: d in removed ==> d < lo || d >= lo + |items|
    ensures Kept(items, removed, lo) == items
    decreases |items|
  {
    if items != [] {
      KeptAll(items[1..], removed, lo + 1);
    }
  }

  /** Every index in range removed: nothing is kept. */
  lemma {:induction false} KeptNone(items: seq<SaleItem>, removed: set<nat>, lo: nat)
    requires forall k :: lo <= k < lo + |items| ==> k in removed
    ensures Kept(items, removed, lo) == []
    decreases |items|
  {
    if items != [] {
      KeptNone(items[1..], removed, lo + 1);
    }
  }

  /** Removing an index below the range changes nothing. */
  lemma {:induction false} KeptIgnores(items: seq<SaleItem>, removed: set<nat>, x: nat, lo: nat)
    requires x < lo
    ensures Kept(items, removed + {x}, lo) == Kept(items, removed, lo)
    decreases |items|
  {
    if items != [] {
      KeptIgnores(items[1..], removed, x, lo + 1);
    }
  }

  /** Once the indices above `i` are gone, removing the item at position
      `i - lo` of what is left removes index `i`. */
  lemma {:induction false} KeptRemoveAt(items: seq<SaleItem>, removed: set<nat>, lo: nat, i: nat)
    requires lo <= i < lo + |items| && forall d :: d in removed ==> d > i
    ensures i - lo < |Kept(items, removed, lo)|
    ensures Kept(items, removed, lo)[..i - lo] + Kept(items, removed, lo)[i - lo + 1..] == Kept(items, removed + {i}, lo)
    decreases |items|, 1
  {
    if lo == i {
      KeptRemoveFirst(items, removed, i);
    } else {
      KeptRemoveLater(items, removed, lo, i);
    }
  }

  /** The case of `KeptRemoveAt` where `i` is the first index. */
  lemma KeptRemoveFirst(items: seq<SaleItem>, removed: set<nat>, i: nat)
    requires 0 < |items| && forall d :: d in removed ==> d > i
    ensures 0 < |Kept(items, removed, i)|
    ensures Kept(items, removed, i)[1..] == Kept(items, removed + {i}, i)
  {
    assert Kept(items, removed, i) == [items[0]] + Kept(items[1..], removed, i + 1);
    KeptIgnores(items[1..], removed, i, i + 1);
  }

  /** The case of `KeptRemoveAt` where `i` lies past the first index. */
  lemma {:induction false} KeptRemoveLater(items: seq<SaleItem>, removed: set<nat>, lo: nat, i: nat)
    requires lo < i < lo + |items| && forall d :: d in removed ==> d > i
    ensures i - lo < |Kept(items, removed, lo)|
    ensures Kept(items, removed, lo)[..i - lo] + Kept(items, removed, lo)[i - lo + 1..] == Kept(items, removed + {i}, lo)
    decreases |items|, 0
  {
    var w' := Kept(items[1..], removed, lo + 1);
    KeptRemoveAt(items[1..], removed, lo + 1, i);
    KeptCons(items, removed, lo);
    KeptCons(items, removed + {i}, lo);
    ConsRemove(items[0], w', i - lo);
  }

  /** An index that is not removed keeps its item in front. */
  lemma KeptCons(items: seq<SaleItem>, removed: set<nat>, lo: nat)
    requires 0 < |items| && lo !in removed
    ensures Kept(items, removed, lo) == [items[0]] + Kept(items[1..], removed, lo + 1)
  {
  }

  /** Removing position `n` of `[a] + w` removes position `n - 1` of `w`. */
  lemma ConsRemove(a: SaleItem, w: seq<SaleItem>, n: nat)
    requires 1 <= n <= |w|
    ensures ([a] + w)[..n] + ([a] + w)[n + 1..] == [a] + (w[..n - 1] + w[n..])
  {
    assert ([a] + w)[..n] == [a] + w[..n - 1];
    assert ([a] + w)[n + 1..] == w[n..];
  }

  /** Once the indices above `i` are gone, removing the item at position `i`
      of what is left removes index `i` of the original. */
  lemma RemoveStep(original: seq<SaleItem>, removed: set<nat>, i: nat)
    requires i < |original| && forall d :: d in removed ==> d > i
    ensures i < |Without(original, removed)|
    ensures Without(original, removed)[..i] + Without(original, removed)[i + 1..] == Without(original, removed + {i})
  {
    KeptRemoveAt(original, removed, 0, i);
  }

  /** The indices listed in `s`. */
  function IndexSet(s: seq<nat>): set<nat>
  {
    set i | i in s
  }

  /** In a strictly decreasing list, the entries before `k` all exceed the
      one at `k`, and taking one more entry adds it to the set. */
  lemma DescendingPrefix(order: seq<nat>, k: nat)
    requires StrictlyDescending(order) && k < |order|
    ensures forall d :: d in IndexSet(order[..k]) ==> d > order[k]
    ensures IndexSet(order[..k + 1]) == IndexSet(order[..k]) + {order[k]}
  {
    assert order[..k + 1] == order[..k] + [order[k]];
  }

  /** Whether `s` is strictly decreasing. */
  predicate StrictlyDescending(s: seq<nat>)
  {
    forall i, j :: 0 <= i < j < |s| ==> s[i] > s[j]
  }

  /** Inserts `x` before the first element not above it. */
  function Insert(x: nat, s: seq<nat>): seq<nat>
    decreases |s|
  {
    if s == [] || x >= s[0] then [x] + s else [s[0]] + Insert(x, s[1..])
  }

  /** `s` sorted from the largest to the smallest index. */
  function SortDescending(s: seq<nat>): seq<nat>
    decreases |s|
  {
    if s == [] then [] else Insert(s[0], SortDescending(s[1..]))
  }

  /** The tail of a strictly decreasing sequence is strictly decreasing and
      lies below its head. */
  lemma DescendingTail(s: seq<nat>)
    requires s != [] && StrictlyDescending(s)
    ensures StrictlyDescending(s[1..]) && forall y :: y in s[1..] ==> y < s[0]
  {
    var t := s[1..];
    forall i, j | 0 <= i < j < |t| ensures t[i] > t[j] {
      assert t[i] == s[i + 1] && t[j] == s[j + 1];
    }
    forall y | y in t ensures y < s[0] {
      var k :| 0 <= k < |t| && t[k] == y;
      assert s[k + 1] == y;
    }
  }

  /** A head above every element of a strictly decreasing sequence keeps it
      strictly decreasing. */
  lemma DescendingCons(h: nat, r: seq<nat>)
    requires StrictlyDescending(r) && forall y :: y in r ==> y < h
    ensures StrictlyDescending([h] + r)
  {
    var q := [h] + r;
    forall i, j | 0 <= i < j < |q| ensures q[i] > q[j] {
      assert q[j] == r[j - 1] && q[j] in r;
      if i > 0 {
        assert q[i] == r[i - 1];
      }
    }
  }

  lemma {:induction false} InsertFacts(x: nat, s: seq<nat>)
    requires StrictlyDescending(s) && x !in s
    ensures StrictlyDescending(Insert(x, s))
    ensures |Insert(x, s)| == |s| + 1 && forall y :: y in Insert(x, s) <==> y == x || y in s
    decreases |s|
  {
    if s == [] {
      assert Insert(x, s) == [x];
    } else if x >= s[0] {
      DescendingTail(s);
      assert s == [s[0]] + s[1..];
      DescendingCons(x, s);
    } else {
      var t := s[1..];
      assert s == [s[0]] + t;
      DescendingTail(s);
      InsertFacts(x, t);
      assert Insert(x, s) == [s[0]] + Insert(x, t);
      DescendingCons(s[0], Insert(x, t));
    }
  }

  /** The sorted indices are the indices, from the largest down. */
  lemma {:induction false} SortDescendingFacts(s: seq<nat>)
    requires NoRepeats(s)
    ensures StrictlyDescending(SortDescending(s))
    ensures |SortDescending(s)| == |s| && forall y :: y in SortDescending(s) <==> y in s
    decreases |s|
  {
    if s != [] {
      assert forall i :: 1 <= i < |s| ==> s[1..][i - 1] == s[i];
      SortDescendingFacts(s[1..]);
      InsertFacts(s[0], SortDescending(s[1..]));
    }
  }

  /** A storage unit: its items, by index. */
  class StorageUnit {
    var items: seq<SaleItem>

    constructor (items: seq<SaleItem>)
      ensures this.items == items
    {
      this.items := items;
    }

    /** Removes the item at `index`; those after it move down by one. */
    method RemoveAt(index: nat)
      requires index < |items|
      modifies this
      ensures items == old(items[..index] + items[index + 1..])
    {
      items := items[..index] + items[index + 1..];
    }
  }

  /** Withdraws the items at `withdrawn` from `unit`, from the highest
      index down, so that each index still names the item recorded. */
  method WithdrawFrom(unit: StorageUnit, withdrawn: seq<nat>)
    requires NoRepeats(withdrawn) && forall k :: 0 <= k < |withdrawn| ==> withdrawn[k] < |unit.items|
    modifies unit
    ensures unit.items == Without(old(unit.items), IndexSet(withdrawn))
    ensures |unit.items| == |old(unit.items)| - |withdrawn|
  {
    ghost var original := unit.items;
    var order := SortDescending(withdrawn);
    SortDescendingFacts(withdrawn);
    assert forall j :: 0 <= j < |order| ==> order[j] < |original| by {
      forall j | 0 <= j < |order| ensures order[j] < |original| {
        assert order[j] in withdrawn;
      }
    }
    assert IndexSet(order[..0]) == {};
    KeptAll(original, {}, 0);
    var k := 0;
    while k < |order|
      invariant 0 <= k <= |order|
      invariant unit.items == Without(original, IndexSet(order[..k]))
      invariant forall j :: k <= j < |order| ==> order[j] < |unit.items|
      invariant |unit.items| == |original| - k
    {
      DescendingPrefix(order, k);
      RemoveStep(original, IndexSet(order[..k]), order[k]);
      unit.RemoveAt(order[k]);
      k := k + 1;
    }
    assert order[..k] == order;
    assert IndexSet(order) == IndexSet(withdrawn);
  }

  /** Every entry is its unit's entry, and a unit without an entry has no
      indices. */
  lemma {:induction false} EntryIndices(withdrawn: seq<Withdrawal>)
    requires UnitsDistinct(withdrawn)
    ensures forall k :: 0 <= k < |withdrawn| ==>
      withdrawn[k].unit in UnitsOf(withdrawn) && IndicesOf(withdrawn, withdrawn[k].unit) == withdrawn[k].indices
    decreases |withdrawn|
  {
    if withdrawn != [] {
      var rest := withdrawn[1..];
      EntryIndices(rest);
      forall k | 1 <= k < |withdrawn|
        ensures withdrawn[k].unit in UnitsOf(withdrawn) && IndicesOf(withdrawn, withdrawn[k].unit) == withdrawn[k].indices
      {
        assert rest[k - 1] == withdrawn[k];
      }
    }
  }

  /** A unit without an entry has no indices. */
  lemma {:induction false} NoEntryNoIndices(withdrawn: seq<Withdrawal>, u: nat)
    requires u !in UnitsOf(withdrawn)
    ensures IndicesOf(withdrawn, u) == []
    decreases |withdrawn|
  {
    if withdrawn != [] {
      NoEntryNoIndices(withdrawn[1..], u);
    }
  }

  /** Appending an entry for a unit without one gives that unit its indices. */
  lemma {:induction false} IndicesOfAppend(withdrawn: seq<Withdrawal>, e: Withdrawal)
    ensures UnitsOf(withdrawn + [e]) == UnitsOf(withdrawn) + {e.unit}
    ensures forall u :: IndicesOf(withdrawn + [e], u)
                        == if u in UnitsOf(withdrawn) then IndicesOf(withdrawn, u) else if u == e.unit then e.indices else []
    decreases |withdrawn|
  {
    if withdrawn != [] {
      assert (withdrawn + [e])[1..] == withdrawn[1..] + [e];
      IndicesOfAppend(withdrawn[1..], e);
    }
  }

  /** In a list with one entry per unit, a later entry's unit has no entry
      before it. */
  lemma {:induction false} UnitsDistinctLater(withdrawn: seq<Withdrawal>, k: nat)
    requires UnitsDistinct(withdrawn) && k < |withdrawn|
    ensures withdrawn[k].unit !in UnitsOf(withdrawn[..k])
    decreases |withdrawn|
  {
    if k > 0 {
      var rest := withdrawn[1..];
      assert withdrawn[..k] == [withdrawn[0]] + rest[..k - 1];
      assert withdrawn[..k][1..] == rest[..k - 1];
      UnitsDistinctLater(rest, k - 1);
      EntryIndices(rest);
      assert rest[k - 1] == withdrawn[k];
      assert withdrawn[k].unit != withdrawn[0].unit;
    }
  }

  /** Taking one more entry gives its unit, which had no indices yet, the
      entry's indices, and leaves the other units as they were. */
  lemma WithdrawnPrefixStep(withdrawn: seq<Withdrawal>, k: nat)
    requires UnitsDistinct(withdrawn) && k < |withdrawn|
    ensures IndicesOf(withdrawn[..k], withdrawn[k].unit) == []
    ensures forall u :: IndicesOf(withdrawn[..k + 1], u)
                        == if u == withdrawn[k].unit then withdrawn[k].indices else IndicesOf(withdrawn[..k], u)
  {
    var e := withdrawn[k];
    UnitsDistinctLater(withdrawn, k);
    NoEntryNoIndices(withdrawn[..k], e.unit);
    IndicesOfAppend(withdrawn[..k], e);
    assert withdrawn[..k + 1] == withdrawn[..k] + [e];
    forall u | u != e.unit && u !in UnitsOf(withdrawn[..k]) ensures IndicesOf(withdrawn[..k], u) == [] {
      NoEntryNoIndices(withdrawn[..k], u);
    }
  }

  /** Withdraws, unit by unit, the indices recorded for each unit. */
  method WithdrawAll(units: seq<StorageUnit>, withdrawn: seq<Withdrawal>)
    requires forall i, j :: 0 <= i < j < |units| ==> units[i] != units[j]
    requires WithdrawnOk(withdrawn)
    requires forall u :: u in UnitsOf(withdrawn) ==> u < |units|
    requires forall u: nat, i: nat :: u < |units| && i in IndicesOf(withdrawn, u) ==> i < |units[u].items|
    modifies set u | u in units
    ensures forall u :: 0 <= u < |units| ==> units[u].items == Without(old(units[u].items), IndexSet(IndicesOf(withdrawn, u)))
  {
    ghost var original := Stores(units);
    EntryIndices(withdrawn);
    assert IndexSet([]) == {};
    forall u | 0 <= u < |units| ensures Without(original[u], IndexSet(IndicesOf(withdrawn[..0], u))) == original[u] {
      assert withdrawn[..0] == [];
      KeptAll(original[u], {}, 0);
    }
    var k := 0;
    while k < |withdrawn|
      invariant 0 <= k <= |withdrawn|
      invariant forall u :: 0 <= u < |units| ==>
        units[u].items == Without(original[u], IndexSet(IndicesOf(withdrawn[..k], u)))
    {
      var e := withdrawn[k];
      WithdrawnPrefixStep(withdrawn, k);
      KeptAll(original[e.unit], {}, 0);
      assert IndexSet(IndicesOf(withdrawn[..k], e.unit)) == {};
      assert units[e.unit].items == original[e.unit];
      assert e.unit in UnitsOf(withdrawn) && IndicesOf(withdrawn, e.unit) == e.indices;
      forall j | 0 <= j < |e.indices| ensures e.indices[j] < |units[e.unit].items| {
        assert e.indices[j] in IndicesOf(withdrawn, e.unit);
      }
      WithdrawFrom(units[e.unit], e.indices);
      k := k + 1;
    }
    assert withdrawn[..k] == withdrawn;
  }

  // ---------------------------------------------------------------------
  // The whole sale
  // ---------------------------------------------------------------------

  /** The items of the units, unit by unit. */
  function Stores(units: seq<StorageUnit>): (stores: seq<seq<SaleItem>>)
    reads set u | u in units
    ensures |stores| == |units| && forall u :: 0 <= u < |units| ==> stores[u] == units[u].items
  {
    seq(|units|, u requires 0 <= u < |units| reads units => units[u].items)
  }

  /** The duplicates to sell, type by type. */
  function SaleCandidates(stores: seq<seq<SaleItem>>, sellOption: int, strictlyEqual: (SaleItem, SaleItem) -> bool): seq<Sourced>
    requires ValidOption(sellOption)
  {
    var sel := Selected(stores, sellOption, strictlyEqual);
    SelectedConsistent(stores, sellOption, strictlyEqual);
    Candidates(sel.contexts, sel.order)
  }

  /** The coins earned and the positions recorded by selling the duplicates. */
  function Sale(stores: seq<seq<SaleItem>>, sellOption: int, strictlyEqual: (SaleItem, SaleItem) -> bool,
                canSell: SaleItem -> bool, coinsSplit: int -> Coins): Proceeds
    requires ValidOption(sellOption)
  {
    SellAll(Proceeds(Coins(0, 0, 0, 0), []), canSell, coinsSplit, SaleCandidates(stores, sellOption, strictlyEqual))
  }

  /** What is put up for sale: distinct items of the network, each an
      eligible copy of a type whose kept item is never put up, ranked
      against that kept item by the sell option. */
  lemma CandidatesSound(stores: seq<seq<SaleItem>>, sellOption: int, strictlyEqual: (SaleItem, SaleItem) -> bool)
    requires ValidOption(sellOption)
    ensures NoRepeats(SaleCandidates(stores, sellOption, strictlyEqual))
    ensures forall d :: d in SaleCandidates(stores, sellOption, strictlyEqual) ==>
      var sel := Selected(stores, sellOption, strictlyEqual);
      && FromStores(stores, d) && Eligible(d.item)
      && d.item.itemType in sel.contexts
      && Ranked(sellOption, sel.contexts[d.item.itemType].keep, d)
    ensures forall t :: t in Selected(stores, sellOption, strictlyEqual).contexts ==>
      var keep := Selected(stores, sellOption, strictlyEqual).contexts[t].keep;
      && FromStores(stores, keep) && keep.item.itemType == t && Eligible(keep.item)
      && keep !in SaleCandidates(stores, sellOption, strictlyEqual)
  {
    var sel := Selected(stores, sellOption, strictlyEqual);
    var all := AllItems(stores);
    SelectedConsistent(stores, sellOption, strictlyEqual);
    AllItemsSound(stores);
    assert forall i :: 0 <= i < |sel.order| ==> BlockOk(sellOption, all, sel.order[i], sel.contexts[sel.order[i]]);
    CandidatesFacts(sel.contexts, sel.order, sellOption, all);
  }

  /** Some candidate at position (`u`, `i`) sells. */
  ghost predicate SoldAt(canSell: SaleItem -> bool, candidates: seq<Sourced>, u: nat, i: nat)
  {
    exists k :: 0 <= k < |candidates| && canSell(candidates[k].item)
                && candidates[k].unit == u && candidates[k].indexInSource == i
  }

  /** Selling distinct items of the network records, for each unit,
      exactly the indices of those the game lets sell, each once. */
  lemma SellRecords(stores: seq<seq<SaleItem>>, p: Proceeds, canSell: SaleItem -> bool, coinsSplit: int -> Coins,
                         candidates: seq<Sourced>)
    requires p.withdrawn == [] && NoRepeats(candidates) && forall k :: 0 <= k < |candidates| ==> FromStores(stores, candidates[k])
    ensures WithdrawnOk(SellAll(p, canSell, coinsSplit, candidates).withdrawn)
    ensures forall u: nat, i: nat ::
      i in IndicesOf(SellAll(p, canSell, coinsSplit, candidates).withdrawn, u) <==>
      SoldAt(canSell, candidates, u, i)
    ensures forall u :: u in UnitsOf(SellAll(p, canSell, coinsSplit, candidates).withdrawn) ==>
      SoldIndices(canSell, candidates, u) != []
  {
    PositionsFromStores(stores, candidates);
    SellAllFacts(p, canSell, coinsSplit, candidates);
    forall u: nat, i: nat ensures i in SoldIndices(canSell, candidates, u) <==> SoldAt(canSell, candidates, u, i) {
      SoldIndicesMeaning(canSell, candidates, u, i);
    }
  }

  /** Every position recorded by selling items of the network is one of
      its positions. */
  lemma SellWithinStores(stores: seq<seq<SaleItem>>, p: Proceeds, canSell: SaleItem -> bool, coinsSplit: int -> Coins,
                         candidates: seq<Sourced>)
    requires p.withdrawn == [] && NoRepeats(candidates) && forall k :: 0 <= k < |candidates| ==> FromStores(stores, candidates[k])
    ensures forall u :: u in UnitsOf(SellAll(p, canSell, coinsSplit, candidates).withdrawn) ==>
      u < |stores|
    ensures forall u: nat, i: nat ::
      i in IndicesOf(SellAll(p, canSell, coinsSplit, candidates).withdrawn, u) ==>
      u < |stores| && i < |stores[u]|
  {
    var w := SellAll(p, canSell, coinsSplit, candidates).withdrawn;
    SellRecords(stores, p, canSell, coinsSplit, candidates);
    forall u: nat, i: nat | SoldAt(canSell, candidates, u, i) ensures u < |stores| && i < |stores[u]| {
      var k :| 0 <= k < |candidates| && canSell(candidates[k].item) && candidates[k].unit == u && candidates[k].indexInSource == i;
      assert FromStores(stores, candidates[k]);
    }
    forall u | u in UnitsOf(w) ensures u < |stores| {
      var i := SoldIndices(canSell, candidates, u)[0];
      SoldIndicesMeaning(canSell, candidates, u, i);
    }
  }

  /** The candidates are distinct items of the network. */
  lemma CandidatesFromStores(stores: seq<seq<SaleItem>>, sellOption: int, strictlyEqual: (SaleItem, SaleItem) -> bool)
    requires ValidOption(sellOption)
    ensures NoRepeats(SaleCandidates(stores, sellOption, strictlyEqual))
    ensures forall k :: 0 <= k < |SaleCandidates(stores, sellOption, strictlyEqual)| ==>
      FromStores(stores, SaleCandidates(stores, sellOption, strictlyEqual)[k])
  {
    var cands := SaleCandidates(stores, sellOption, strictlyEqual);
    CandidatesSound(stores, sellOption, strictlyEqual);
    forall k | 0 <= k < |cands| ensures FromStores(stores, cands[k]) {
      assert cands[k] in cands;
    }
  }

  /** The sale records, for each unit, exactly the indices of the
      candidates there that the game lets sell, each once. */
  lemma SaleRecords(stores: seq<seq<SaleItem>>, sellOption: int, strictlyEqual: (SaleItem, SaleItem) -> bool,
                    canSell: SaleItem -> bool, coinsSplit: int -> Coins)
    requires ValidOption(sellOption)
    ensures WithdrawnOk(Sale(stores, sellOption, strictlyEqual, canSell, coinsSplit).withdrawn)
    ensures forall u: nat, i: nat :: i in IndicesOf(Sale(stores, sellOption, strictlyEqual, canSell, coinsSplit).withdrawn, u) <==>
      SoldAt(canSell, SaleCandidates(stores, sellOption, strictlyEqual), u, i)
  {
    var cands := SaleCandidates(stores, sellOption, strictlyEqual);
    CandidatesFromStores(stores, sellOption, strictlyEqual);
    SellRecords(stores, Proceeds(Coins(0, 0, 0, 0), []), canSell, coinsSplit, cands);
  }

  /** Every position the sale records is a position of the network. */
  lemma SaleWithinStores(stores: seq<seq<SaleItem>>, sellOption: int, strictlyEqual: (SaleItem, SaleItem) -> bool,
                         canSell: SaleItem -> bool, coinsSplit: int -> Coins)
    requires ValidOption(sellOption)
    ensures forall u :: u in UnitsOf(Sale(stores, sellOption, strictlyEqual, canSell, coinsSplit).withdrawn) ==> u < |stores|
    ensures forall u: nat, i: nat :: i in IndicesOf(Sale(stores, sellOption, strictlyEqual, canSell, coinsSplit).withdrawn, u) ==>
      u < |stores| && i < |stores[u]|
  {
    var cands := SaleCandidates(stores, sellOption, strictlyEqual);
    CandidatesFromStores(stores, sellOption, strictlyEqual);
    SellWithinStores(stores, Proceeds(Coins(0, 0, 0, 0), []), canSell, coinsSplit, cands);
  }

  /** The sale earns the coins of the candidates that sell. */
  lemma SaleCoins(stores: seq<seq<SaleItem>>, sellOption: int, strictlyEqual: (SaleItem, SaleItem) -> bool,
                  canSell: SaleItem -> bool, coinsSplit: int -> Coins)
    requires ValidOption(sellOption)
    ensures CopperValue(Sale(stores, sellOption, strictlyEqual, canSell, coinsSplit).coins)
            == SoldValue(canSell, coinsSplit, SaleCandidates(stores, sellOption, strictlyEqual))
  {
    SellAllCoinsFromZero(Proceeds(Coins(0, 0, 0, 0), []), canSell, coinsSplit, SaleCandidates(stores, sellOption, strictlyEqual));
  }

  /** The item kept for each type is never withdrawn. */
  lemma SaleSparesKeeps(stores: seq<seq<SaleItem>>, sellOption: int, strictlyEqual: (SaleItem, SaleItem) -> bool,
                        canSell: SaleItem -> bool, coinsSplit: int -> Coins, t: int)
    requires ValidOption(sellOption) && t in Selected(stores, sellOption, strictlyEqual).contexts
    ensures var keep := Selected(stores, sellOption, strictlyEqual).contexts[t].keep;
      FromStores(stores, keep)
      && keep.indexInSource !in IndicesOf(Sale(stores, sellOption, strictlyEqual, canSell, coinsSplit).withdrawn, keep.unit)
  {
    var keep := Selected(stores, sellOption, strictlyEqual).contexts[t].keep;
    var cands := SaleCandidates(stores, sellOption, strictlyEqual);
    CandidatesSound(stores, sellOption, strictlyEqual);
    SaleRecords(stores, sellOption, strictlyEqual, canSell, coinsSplit);
  }

  /** The duplicates of every listed type are among the candidates. */
  lemma {:induction false} CandidatesCover(contexts: map<int, DuplicateContext>, order: seq<int>, t: int, d: Sourced)
    requires Keyed(contexts, order) && t in order && d in contexts[t].duplicates
    ensures d in Candidates(contexts, order)
  {
    var n := |order| - 1;
    var front := order[..n];
    assert Keyed(contexts, front) by {
      assert forall i :: 0 <= i < n ==> front[i] == order[i];
    }
    if order[n] != t {
      assert t in front by {
        var i :| 0 <= i < |order| && order[i] == t;
        assert front[i] == t;
      }
      CandidatesCover(contexts, front, t, d);
    }
  }

  /** An item is a candidate exactly when it is a duplicate of its own type. */
  lemma CandidatesExactly(stores: seq<seq<SaleItem>>, sellOption: int, strictlyEqual: (SaleItem, SaleItem) -> bool, s: Sourced)
    requires ValidOption(sellOption)
    ensures var sel := Selected(stores, sellOption, strictlyEqual);
      s in SaleCandidates(stores, sellOption, strictlyEqual) <==>
      s.item.itemType in sel.contexts && s in sel.contexts[s.item.itemType].duplicates
  {
    var sel := Selected(stores, sellOption, strictlyEqual);
    SelectedConsistent(stores, sellOption, strictlyEqual);
    AllItemsSound(stores);
    assert forall i :: 0 <= i < |sel.order| ==> BlockOk(sellOption, AllItems(stores), sel.order[i], sel.contexts[sel.order[i]]);
    CandidatesFacts(sel.contexts, sel.order, sellOption, AllItems(stores));
    if s.item.itemType in sel.contexts && s in sel.contexts[s.item.itemType].duplicates {
      CandidatesCover(sel.contexts, sel.order, s.item.itemType, s);
    }
  }

  /** An item of the network the filter puts up for sale: the first
      eligible item of its type or a copy of it; under the no-prefix option
      a copy without a prefix, and under the value options any member of
      the class other than the first one of the greatest (least) value. */
  ghost predicate PutUp(stores: seq<seq<SaleItem>>, sellOption: int, strictlyEqual: (SaleItem, SaleItem) -> bool, s: Sourced)
  {
    var all := AllItems(stores);
    var first := FirstOfType(all, s.item.itemType);
    && s in all
    && first.Some? && (s == first.value || Copy(first.value, s, strictlyEqual))
    && if sellOption == SellNoPrefixItems then s != first.value && s.item.prefix == 0
       else !Preferred(sellOption, strictlyEqual, all, first.value, s)
  }

  /** The duplicates of a gathered context are exactly the items of `seen`
      that are its first item or a copy of it, other than the keep, and
      under the no-prefix option without a prefix. */
  lemma {:induction false} GatheredExactly(sellOption: int, strictlyEqual: (SaleItem, SaleItem) -> bool, seen: seq<Sourced>,
                                           t: int, first: Sourced, context: DuplicateContext, s: Sourced)
    requires ValidOption(sellOption) && BlockOk(sellOption, seen, t, context)
    requires GatheredFor(sellOption, strictlyEqual, seen, first, context)
    ensures s in context.duplicates <==>
      && s in seen && (s == first || Copy(first, s, strictlyEqual)) && s != context.keep
      && (sellOption == SellNoPrefixItems ==> s.item.prefix == 0)
  {
    if sellOption != SellNoPrefixItems {
      if s in context.duplicates {
        assert s in multiset(Copies(seen, first, strictlyEqual)) + multiset{first};
      }
      if s in seen && (s == first || Copy(first, s, strictlyEqual)) && s != context.keep {
        assert s in multiset(context.duplicates) + multiset{context.keep};
      }
    }
  }

  /** The duplicates of a type are exactly the items put up for sale. */
  lemma DuplicatesExactly(stores: seq<seq<SaleItem>>, sellOption: int, strictlyEqual: (SaleItem, SaleItem) -> bool, s: Sourced)
    requires ValidOption(sellOption) && (sellOption == SellNoPrefixItems || Equivalence(strictlyEqual))
    ensures var sel := Selected(stores, sellOption, strictlyEqual);
      s.item.itemType in sel.contexts && s in sel.contexts[s.item.itemType].duplicates <==>
      PutUp(stores, sellOption, strictlyEqual, s)
  {
    var all := AllItems(stores);
    var sel := Selected(stores, sellOption, strictlyEqual);
    var t := s.item.itemType;
    SelectedConsistent(stores, sellOption, strictlyEqual);
    SelectedGathers(stores, sellOption, strictlyEqual);
    if t in sel.contexts {
      assert BlockOk(sellOption, all, t, sel.contexts[t]);
      GatheredExactly(sellOption, strictlyEqual, all, t, FirstOfType(all, t).value, sel.contexts[t], s);
      if sellOption != SellNoPrefixItems {
        KeptFirstPreferred(stores, sellOption, strictlyEqual, t);
      }
    }
  }

  /** What the sale withdraws: an item of the network is withdrawn exactly
      when the filter puts it up for sale and the game lets it sell. */
  lemma SaleComplete(stores: seq<seq<SaleItem>>, sellOption: int, strictlyEqual: (SaleItem, SaleItem) -> bool,
                     canSell: SaleItem -> bool, coinsSplit: int -> Coins, s: Sourced)
    requires ValidOption(sellOption) && (sellOption == SellNoPrefixItems || Equivalence(strictlyEqual))
    requires FromStores(stores, s)
    ensures s.indexInSource in IndicesOf(Sale(stores, sellOption, strictlyEqual, canSell, coinsSplit).withdrawn, s.unit) <==>
      canSell(s.item) && PutUp(stores, sellOption, strictlyEqual, s)
  {
    var cands := SaleCandidates(stores, sellOption, strictlyEqual);
    AllItemsSound(stores);
    CandidatesFromStores(stores, sellOption, strictlyEqual);
    SaleRecords(stores, sellOption, strictlyEqual, canSell, coinsSplit);
    CandidatesExactly(stores, sellOption, strictlyEqual, s);
    DuplicatesExactly(stores, sellOption, strictlyEqual, s);
    assert FromStores(stores, s);
    if SoldAt(canSell, cands, s.unit, s.indexInSource) {
      var k :| 0 <= k < |cands| && canSell(cands[k].item) && cands[k].unit == s.unit && cands[k].indexInSource == s.indexInSource;
      assert FromStores(stores, cands[k]);
      assert cands[k] == s;
    }
    if canSell(s.item) && s in cands {
      var k :| 0 <= k < |cands| && cands[k] == s;
      assert SoldAt(canSell, cands, s.unit, s.indexInSource);
    }
  }

  // ---------------------------------------------------------------------
  // The selling routine
  // ---------------------------------------------------------------------

  /** Filters `items` into the dictionary of duplicates, item by item. */
  method SelectDuplicates(items: seq<Sourced>, sellOption: int, strictlyEqual: (SaleItem, SaleItem) -> bool)
    returns (sel: Selection)
    requires ValidOption(sellOption)
    ensures sel == SelectAll(Selection(map[], []), sellOption, strictlyEqual, items)
  {
    var contexts: map<int, DuplicateContext> := map[];
    var order: seq<int> := [];
    var k := 0;
    while k < |items|
      invariant 0 <= k <= |items|
      invariant SelectAll(Selection(contexts, order), sellOption, strictlyEqual, items[k..])
                == SelectAll(Selection(map[], []), sellOption, strictlyEqual, items)
    {
      var s := items[k];
      var t := s.item.itemType;
      assert items[k..][1..] == items[k + 1..];
      if !Eligible(s.item) {
        // only unstackable items are sold
      } else if t !in contexts {
        contexts := contexts[t := DuplicateContext(s, [])];
        order := order + [t];
      } else if strictlyEqual(contexts[t].keep.item, s.item) {
        var context := contexts[t];
        var v := Evaluate(sellOption, context.keep, s);
        var duplicates := context.duplicates;
        if v.sell {
          if v.swapped {
            duplicates := Remove(duplicates, v.keep);
          }
          duplicates := duplicates + [v.check];
        }
        contexts := contexts[t := DuplicateContext(v.keep, duplicates)];
      }
      k := k + 1;
    }
    sel := Selection(contexts, order);
  }

  /** Sells the candidates one by one: adds up the coins of each that the
      game lets sell and records its position. */
  method SellDuplicates(candidates: seq<Sourced>, canSell: SaleItem -> bool, coinsSplit: int -> Coins)
    returns (copper: int, silver: int, gold: int, platinum: int, withdrawn: seq<Withdrawal>)
    ensures Proceeds(Coins(copper, silver, gold, platinum), withdrawn)
            == SellAll(Proceeds(Coins(0, 0, 0, 0), []), canSell, coinsSplit, candidates)
  {
    copper, silver, gold, platinum := 0, 0, 0, 0;
    withdrawn := [];
    var k := 0;
    while k < |candidates|
      invariant 0 <= k <= |candidates|
      invariant SellAll(Proceeds(Coins(copper, silver, gold, platinum), withdrawn), canSell, coinsSplit, candidates[k..])
                == SellAll(Proceeds(Coins(0, 0, 0, 0), []), canSell, coinsSplit, candidates)
    {
      var duplicate := candidates[k];
      assert candidates[k..][1..] == candidates[k + 1..];
      if canSell(duplicate.item) {
        var coins := coinsSplit(duplicate.item.value);
        platinum := platinum + coins.platinum;
        gold := gold + coins.gold;
        silver := silver + coins.silver;
        copper := copper + coins.copper;
        withdrawn := Record(withdrawn, duplicate.unit, duplicate.indexInSource);
      }
      k := k + 1;
    }
  }

  /** The outcome of selling: the copper value of the coins earned and the
      positions withdrawn, or the rejection of an unknown sell option. */
  datatype SellOutcome = Sold(coppersEarned: int, withdrawnItems: seq<Withdrawal>) | OutOfRange

  /** Sells the duplicates of unstackable items across `units` under
      `sellOption` and withdraws them from their units. */
  method DoSell(units: seq<StorageUnit>, sellOption: int, strictlyEqual: (SaleItem, SaleItem) -> bool,
                canSell: SaleItem -> bool, coinsSplit: int -> Coins)
    returns (outcome: SellOutcome)
    requires forall i, j :: 0 <= i < j < |units| ==> units[i] != units[j]
    modifies set u | u in units
    ensures !ValidOption(sellOption) ==>
      outcome == OutOfRange && forall u :: 0 <= u < |units| ==> units[u].items == old(units[u].items)
    ensures ValidOption(sellOption) ==>
      var sale := Sale(old(Stores(units)), sellOption, strictlyEqual, canSell, coinsSplit);
      && outcome == Sold(CopperValue(sale.coins), sale.withdrawn)
      && forall u :: 0 <= u < |units| ==>
           units[u].items == Without(old(units[u].items), IndexSet(IndicesOf(sale.withdrawn, u)))
  {
    if !ValidOption(sellOption) {
      return OutOfRange;
    }
    ghost var stores := Stores(units);
    var items := AllItems(Stores(units));
    var sel := SelectDuplicates(items, sellOption, strictlyEqual);
    SelectedConsistent(stores, sellOption, strictlyEqual);
    var candidates := Candidates(sel.contexts, sel.order);
    var copper, silver, gold, platinum, withdrawn := SellDuplicates(candidates, canSell, coinsSplit);
    SaleRecords(stores, sellOption, strictlyEqual, canSell, coinsSplit);
    SaleWithinStores(stores, sellOption, strictlyEqual, canSell, coinsSplit);
    WithdrawAll(units, withdrawn);
    outcome := Sold(platinum * 1000000 + gold * 10000 + silver * 100 + copper, withdrawn);
  }
}
