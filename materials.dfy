/** The materials aggregation of the ordered recipe tree: contexts are
    processed deepest-first, each live context is turned into whole batches,
    its ingredient needs are drained from the pool of excess results (exact
    type first, then the members of a recipe group that accepts the
    ingredient), what is still needed is merged into the material list, and
    the batches' output joins the excess pool. */
module Materials {
  import opened Common

  /** An entry of the excess pool: an item type and how many are left over. */
  datatype ItemInfo = ItemInfo(itemType: int, stack: int)

  /** A material is keyed by an item type or, when the ingredient was met
      through a recipe group, by the group's id. */
  datatype MaterialKey = ItemKey(itemType: int) | GroupKey(groupId: int)

  datatype Material = Material(key: MaterialKey, stack: int)

  /** The aggregation's state: the material list with its index by key and
      the excess list with its index by item type. The two dictionaries of
      material indices (by item type and by group id) are one map here, keyed
      by the tagged key. */
  datatype Ledger = Ledger(materials: seq<Material>, materialIndex: map<MaterialKey, nat>,
                           excess: seq<ItemInfo>, excessIndex: map<int, nat>)

  const EmptyLedger := Ledger([], map[], [], map[])

  // ---------------------------------------------------------------------
  // Well-formed ledgers and their views
  // ---------------------------------------------------------------------

  /** Each index maps a key to the one entry carrying that key, and every
      entry is indexed at its own position. */
  ghost predicate Indexed(l: Ledger)
  {
    && (forall k :: k in l.materialIndex ==> l.materialIndex[k] < |l.materials| && l.materials[l.materialIndex[k]].key == k)
    && (forall i :: 0 <= i < |l.materials| ==> l.materials[i].key in l.materialIndex && l.materialIndex[l.materials[i].key] == i)
    && (forall t :: t in l.excessIndex ==> l.excessIndex[t] < |l.excess| && l.excess[l.excessIndex[t]].itemType == t)
    && (forall i :: 0 <= i < |l.excess| ==> l.excess[i].itemType in l.excessIndex && l.excessIndex[l.excess[i].itemType] == i)
  }

  /** A well-formed ledger with no negative stack anywhere. */
  ghost predicate Sound(l: Ledger)
  {
    && Indexed(l)
    && (forall i :: 0 <= i < |l.materials| ==> l.materials[i].stack >= 0)
    && (forall i :: 0 <= i < |l.excess| ==> l.excess[i].stack >= 0)
  }

  /** How many of `t` the excess pool holds. */
  function ExcessOf(l: Ledger, t: int): int
  {
    if t in l.excessIndex && l.excessIndex[t] < |l.excess| then l.excess[l.excessIndex[t]].stack else 0
  }

  /** How many are needed under `key` in the material list. */
  function MaterialOf(l: Ledger, key: MaterialKey): int
  {
    if key in l.materialIndex && l.materialIndex[key] < |l.materials| then l.materials[l.materialIndex[key]].stack else 0
  }

  function SumExcess(s: seq<ItemInfo>): int
  {
    if s == [] then 0 else SumExcess(s[..|s| - 1]) + s[|s| - 1].stack
  }

  function SumMaterials(s: seq<Material>): int
  {
    if s == [] then 0 else SumMaterials(s[..|s| - 1]) + s[|s| - 1].stack
  }

  /** The total of the stacks of `items` of type `t`. */
  function CountOf(items: seq<Item>, t: int): nat
  {
    if items == [] then 0
    else (if items[0].itemType == t then items[0].stack else 0) + CountOf(items[1..], t)
  }

  /** In a well-formed ledger no key has two entries. */
  lemma {:induction false} OneEntryPerKey(l: Ledger)
    requires Indexed(l)
    ensures forall i, j :: 0 <= i < j < |l.materials| ==> l.materials[i].key != l.materials[j].key
    ensures forall i, j :: 0 <= i < j < |l.excess| ==> l.excess[i].itemType != l.excess[j].itemType
  {
    forall i, j | 0 <= i < j < |l.materials| ensures l.materials[i].key != l.materials[j].key {
      assert l.materialIndex[l.materials[i].key] == i && l.materialIndex[l.materials[j].key] == j;
    }
    forall i, j | 0 <= i < j < |l.excess| ensures l.excess[i].itemType != l.excess[j].itemType {
      assert l.excessIndex[l.excess[i].itemType] == i && l.excessIndex[l.excess[j].itemType] == j;
    }
  }

  // ---------------------------------------------------------------------
  // Sums under a point update
  // ---------------------------------------------------------------------

  lemma {:induction false} SumExcessUpdate(s: seq<ItemInfo>, i: nat, x: ItemInfo)
    requires i < |s|
    ensures SumExcess(s[i := x]) == SumExcess(s) - s[i].stack + x.stack
    decreases |s|
  {
    var n := |s| - 1;
    assert s[i := x][..n] == if i < n then s[..n][i := x] else s[..n];
    if i < n {
      SumExcessUpdate(s[..n], i, x);
    }
  }

  lemma {:induction false} SumMaterialsUpdate(s: seq<Material>, i: nat, x: Material)
    requires i < |s|
    ensures SumMaterials(s[i := x]) == SumMaterials(s) - s[i].stack + x.stack
    decreases |s|
  {
    var n := |s| - 1;
    assert s[i := x][..n] == if i < n then s[..n][i := x] else s[..n];
    if i < n {
      SumMaterialsUpdate(s[..n], i, x);
    }
  }

  lemma SumExcessSnoc(s: seq<ItemInfo>, x: ItemInfo)
    ensures SumExcess(s + [x]) == SumExcess(s) + x.stack
  {
    assert (s + [x])[..|s|] == s;
  }

  lemma SumMaterialsSnoc(s: seq<Material>, x: Material)
    ensures SumMaterials(s + [x]) == SumMaterials(s) + x.stack
  {
    assert (s + [x])[..|s|] == s;
  }

  // ---------------------------------------------------------------------
  // Draining the excess pool
  // ---------------------------------------------------------------------

  /** The least number of whole batches of `size` that make `amount`. */
  function Batches(amount: int, size: int): (b: nat)
    requires amount > 0 && size > 0
    ensures b * size >= amount && (b - 1) * size < amount
  {
    CeilDivBounds(amount, size);
    var b := CeilDiv(amount, size);
    assert b > 0 by {
      assert (-amount) / size < 0;
    }
    b
  }

  /** Draws a need from the excess entry at `idx`: the entry covers it and is
      reduced, or the entry is emptied and the need reduced by what it held. */
  function DrainEntry(excess: seq<ItemInfo>, idx: nat, need: int): (seq<ItemInfo>, int)
    requires idx < |excess|
  {
    if excess[idx].stack >= need then (excess[idx := excess[idx].(stack := excess[idx].stack - need)], 0)
    else (excess[idx := excess[idx].(stack := 0)], need - excess[idx].stack)
  }

  /** Drains a need from the excess entries of a group's valid items, in
      order. A covered need drops to zero and the remaining members are still
      visited. The third component says whether the scan left early with
      nothing more to find; that exit is never taken (`DrainGroupFacts`). */
  function DrainGroup(excess: seq<ItemInfo>, index: map<int, nat>, validItems: seq<int>, need: int): (seq<ItemInfo>, int, bool)
    decreases |validItems|
  {
    if validItems == [] then (excess, need, false)
    else if validItems[0] in index && index[validItems[0]] < |excess| then
      var idx := index[validItems[0]];
      var (excess', need') := DrainEntry(excess, idx, need);
      if excess[idx].stack < need && need' <= 0 then (excess', need', true)
      else DrainGroup(excess', index, validItems[1..], need')
    else DrainGroup(excess, index, validItems[1..], need)
  }

  /** The first of the accepted groups (in the recipe's order) that contains
      the item type. */
  function FirstGroup(groups: GroupRegistry, accepted: seq<int>, itemType: int): (r: Option<int>)
    ensures r.Some? ==> r.value in accepted && ContainsItem(groups, r.value, itemType)
    ensures r.None? ==> forall k :: 0 <= k < |accepted| ==> !ContainsItem(groups, accepted[k], itemType)
  {
    if accepted == [] then None
    else if ContainsItem(groups, accepted[0], itemType) then Some(accepted[0])
    else FirstGroup(groups, accepted[1..], itemType)
  }

  /** The group found is the first accepted one holding the type: every
      group listed before it lacks the type. */
  lemma {:induction false} FirstGroupIsFirst(groups: GroupRegistry, accepted: seq<int>, itemType: int)
    requires FirstGroup(groups, accepted, itemType).Some?
    ensures exists k :: 0 <= k < |accepted| && accepted[k] == FirstGroup(groups, accepted, itemType).value &&
                        forall j :: 0 <= j < k ==> !ContainsItem(groups, accepted[j], itemType)
  {
    var r := FirstGroup(groups, accepted, itemType).value;
    if ContainsItem(groups, accepted[0], itemType) {
      assert accepted[0] == r;
    } else {
      FirstGroupIsFirst(groups, accepted[1..], itemType);
      var k :| 0 <= k < |accepted[1..]| && accepted[1..][k] == r &&
               forall j :: 0 <= j < k ==> !ContainsItem(groups, accepted[1..][j], itemType);
      assert accepted[k + 1] == r;
      forall j | 0 <= j < k + 1 ensures !ContainsItem(groups, accepted[j], itemType) {
        if j > 0 {
          assert accepted[j] == accepted[1..][j - 1];
        }
      }
    }
  }

  // ---------------------------------------------------------------------
  // Merging into the material and excess lists
  // ---------------------------------------------------------------------

  /** Adds `amount` under `key`: to its existing entry, or as a new last entry. */
  function MergeMaterial(l: Ledger, key: MaterialKey, amount: int): Ledger
  {
    if key in l.materialIndex && l.materialIndex[key] < |l.materials| then
      var idx := l.materialIndex[key];
      l.(materials := l.materials[idx := l.materials[idx].(stack := l.materials[idx].stack + amount)])
    else
      l.(materials := l.materials + [Material(key, amount)], materialIndex := l.materialIndex[key := |l.materials|])
  }

  /** Adds an item to the excess pool: to its type's entry, or as a new last entry. */
  function AddResult(l: Ledger, item: Item): Ledger
  {
    if item.itemType in l.excessIndex && l.excessIndex[item.itemType] < |l.excess| then
      var idx := l.excessIndex[item.itemType];
      l.(excess := l.excess[idx := l.excess[idx].(stack := l.excess[idx].stack + item.stack)])
    else
      l.(excess := l.excess + [ItemInfo(item.itemType, item.stack)], excessIndex := l.excessIndex[item.itemType := |l.excess|])
  }

  function AddResults(l: Ledger, items: seq<Item>): Ledger
    decreases |items|
  {
    if items == [] then l else AddResults(AddResult(l, items[0]), items[1..])
  }

  // ---------------------------------------------------------------------
  // One ingredient, one context, a whole processing order
  // ---------------------------------------------------------------------

  /** Meets the need for one ingredient slot of `batches` crafts: from the
      exact type's excess, then (if the recipe accepts a group containing the
      type) from the group members' excess and under the group's key,
      otherwise under the item's key. */
  function ConsumeIngredient(l: Ledger, groups: GroupRegistry, recipe: Recipe, item: Item, batches: int): Ledger
    requires WellFormedRecipe(groups, recipe)
  {
    var need := item.stack * batches;
    var t := item.itemType;
    if t in l.excessIndex && l.excessIndex[t] < |l.excess| && l.excess[l.excessIndex[t]].stack >= need then
      l.(excess := DrainEntry(l.excess, l.excessIndex[t], need).0)
    else
      var (excess1, need1) :=
        if t in l.excessIndex && l.excessIndex[t] < |l.excess| then DrainEntry(l.excess, l.excessIndex[t], need)
        else (l.excess, need);
      match FirstGroup(groups, recipe.acceptedGroups, t)
      case Some(g) =>
        var (excess2, need2, jumped) := DrainGroup(excess1, l.excessIndex, groups[g], need1);
        if jumped then l.(excess := excess2) else MergeMaterial(l.(excess := excess2), GroupKey(g), need2)
      case None =>
        MergeMaterial(l.(excess := excess1), ItemKey(t), need1)
  }

  function ConsumeAll(l: Ledger, groups: GroupRegistry, recipe: Recipe, items: seq<Item>, batches: int): Ledger
    requires WellFormedRecipe(groups, recipe)
    decreases |items|
  {
    if items == [] then l
    else ConsumeAll(ConsumeIngredient(l, groups, recipe, items[0], batches), groups, recipe, items[1..], batches)
  }

  /** What one craft of `batches` batches of `recipe` drops besides its
      result (the craft hooks of other mods), abstracted as a parameter. */
  type DropHook = (Recipe, nat) -> seq<Item>

  /** The output of `batches` batches: the result stack first, then the drops. */
  function Outputs(recipe: Recipe, batches: nat, drops: DropHook): seq<Item>
  {
    [Item(recipe.createItem.itemType, recipe.createItem.stack * batches)] + drops(recipe, batches)
  }

  /** One context of the processing order: a context with nothing to craft
      is skipped; a live one consumes its ingredients for whole batches and
      adds the batches' output to the excess pool. */
  function ProcessContext(l: Ledger, groups: GroupRegistry, drops: DropHook, ctx: RecipeContext): Ledger
    requires WellFormedRecipe(groups, ctx.recipe)
  {
    if ctx.amountToCraft <= 0 then l
    else
      var batches := Batches(ctx.amountToCraft, ctx.recipe.createItem.stack);
      AddResults(ConsumeAll(l, groups, ctx.recipe, ctx.recipe.requiredItem, batches), Outputs(ctx.recipe, batches, drops))
  }

  ghost predicate AllWellFormed(groups: GroupRegistry, ctxs: seq<RecipeContext>)
  {
    forall i :: 0 <= i < |ctxs| ==> WellFormedRecipe(groups, ctxs[i].recipe)
  }

  /** The contexts processed in order. */
  function Aggregate(l: Ledger, groups: GroupRegistry, drops: DropHook, ctxs: seq<RecipeContext>): Ledger
    requires AllWellFormed(groups, ctxs)
    decreases |ctxs|
  {
    if ctxs == [] then l
    else Aggregate(ProcessContext(l, groups, drops, ctxs[0]), groups, drops, ctxs[1..])
  }

  // ---------------------------------------------------------------------
  // Properties
  // ---------------------------------------------------------------------

  ghost predicate NonNegative(excess: seq<ItemInfo>)
  {
    forall i :: 0 <= i < |excess| ==> excess[i].stack >= 0
  }

  /** Draining changes stacks only, never the item types or the length. */
  ghost predicate SameTypes(a: seq<ItemInfo>, b: seq<ItemInfo>)
  {
    |a| == |b| && forall i :: 0 <= i < |a| ==> a[i].itemType == b[i].itemType
  }

  /** Draining one entry never makes it negative, and what leaves the entry
      is exactly what leaves the need. */
  lemma {:induction false} DrainEntryFacts(excess: seq<ItemInfo>, idx: nat, need: int)
    requires idx < |excess| && NonNegative(excess) && need >= 0
    ensures var (excess', need') := DrainEntry(excess, idx, need);
      && SameTypes(excess, excess') && NonNegative(excess')
      && 0 <= need' <= need
      && (excess[idx].stack >= need <==> need' == 0)
      && SumExcess(excess) - SumExcess(excess') == need - need'
      && (forall i :: 0 <= i < |excess| && i != idx ==> excess'[i] == excess[i])
  {
    var (excess', need') := DrainEntry(excess, idx, need);
    SumExcessUpdate(excess, idx, excess'[idx]);
  }

  /** Draining a group never makes an entry negative, moves exactly the
      drained amount out of the pool, and never takes the early exit: an
      entry that does not cover the need leaves some of it. */
  lemma {:induction false} DrainGroupFacts(excess: seq<ItemInfo>, index: map<int, nat>, validItems: seq<int>, need: int)
    requires NonNegative(excess) && need >= 0
    ensures var (excess', need', jumped) := DrainGroup(excess, index, validItems, need);
      && !jumped
      && SameTypes(excess, excess') && NonNegative(excess')
      && 0 <= need' <= need
      && SumExcess(excess) - SumExcess(excess') == need - need'
    decreases |validItems|
  {
    if validItems != [] {
      if validItems[0] in index && index[validItems[0]] < |excess| {
        var idx := index[validItems[0]];
        var (excess', need') := DrainEntry(excess, idx, need);
        DrainEntryFacts(excess, idx, need);
        DrainGroupFacts(excess', index, validItems[1..], need');
      } else {
        DrainGroupFacts(excess, index, validItems[1..], need);
      }
    }
  }

  /** Merging keeps the ledger sound and leaves the excess pool alone. */
  lemma {:induction false} MergeMaterialSound(l: Ledger, key: MaterialKey, amount: int)
    requires Sound(l) && amount >= 0
    ensures var r := MergeMaterial(l, key, amount);
      Sound(r) && r.excess == l.excess && r.excessIndex == l.excessIndex
  {
    if key in l.materialIndex {
      var idx := l.materialIndex[key];
      var r := MergeMaterial(l, key, amount);
      forall k | k in r.materialIndex && k != key ensures r.materialIndex[k] != idx {
        assert l.materials[l.materialIndex[k]].key == k;
      }
    } else {
      assert forall i :: 0 <= i < |l.materials| ==> l.materials[i].key != key;
    }
  }

  /** Merging adds the amount under its key and nowhere else. */
  lemma {:induction false} MergeMaterialFacts(l: Ledger, key: MaterialKey, amount: int)
    requires Indexed(l)
    ensures var r := MergeMaterial(l, key, amount);
      && r.excess == l.excess && r.excessIndex == l.excessIndex
      && SumMaterials(r.materials) == SumMaterials(l.materials) + amount
      && (forall k :: MaterialOf(r, k) == MaterialOf(l, k) + (if k == key then amount else 0))
  {
    var r := MergeMaterial(l, key, amount);
    if key in l.materialIndex {
      var idx := l.materialIndex[key];
      SumMaterialsUpdate(l.materials, idx, r.materials[idx]);
      forall k ensures MaterialOf(r, k) == MaterialOf(l, k) + (if k == key then amount else 0) {
        if k in l.materialIndex && k != key {
          assert l.materials[l.materialIndex[k]].key == k;
        }
      }
    } else {
      SumMaterialsSnoc(l.materials, Material(key, amount));
    }
  }

  /** Adding an item keeps the ledger sound and adds its stack to its type
      only. */
  lemma {:induction false} AddResultFacts(l: Ledger, item: Item)
    requires Sound(l)
    ensures var r := AddResult(l, item);
      && Sound(r)
      && r.materials == l.materials && r.materialIndex == l.materialIndex
      && (forall t :: ExcessOf(r, t) == ExcessOf(l, t) + (if t == item.itemType then item.stack else 0))
  {
    var r := AddResult(l, item);
    if item.itemType in l.excessIndex {
      var idx := l.excessIndex[item.itemType];
      forall t | t in r.excessIndex && t != item.itemType ensures r.excessIndex[t] != idx {
        assert l.excess[l.excessIndex[t]].itemType == t;
      }
    } else {
      assert forall i :: 0 <= i < |l.excess| ==> l.excess[i].itemType != item.itemType;
    }
  }

  /** After adding a list of items, the pool holds, per type, what it held
      plus what the list brings of that type; the material list is untouched. */
  lemma {:induction false} AddResultsFacts(l: Ledger, items: seq<Item>)
    requires Sound(l)
    ensures var r := AddResults(l, items);
      && Sound(r)
      && r.materials == l.materials && r.materialIndex == l.materialIndex
      && (forall t :: ExcessOf(r, t) == ExcessOf(l, t) + CountOf(items, t))
    decreases |items|
  {
    if items != [] {
      AddResultFacts(l, items[0]);
      AddResultsFacts(AddResult(l, items[0]), items[1..]);
    }
  }

  /** Replacing the excess stacks (same types, none negative) keeps a ledger
      sound. */
  lemma {:induction false} ReplaceExcessSound(l: Ledger, excess: seq<ItemInfo>)
    requires Sound(l) && SameTypes(l.excess, excess) && NonNegative(excess)
    ensures Sound(l.(excess := excess))
  {
  }

  /** One ingredient slot: the ledger stays sound and every unit of the need
      is either drawn from the excess pool or recorded as a material. */
  lemma {:induction false} ConsumeIngredientFacts(l: Ledger, groups: GroupRegistry, recipe: Recipe, item: Item, batches: nat)
    requires Sound(l) && WellFormedRecipe(groups, recipe)
    ensures var r := ConsumeIngredient(l, groups, recipe, item, batches);
      && Sound(r)
      && (SumExcess(l.excess) - SumExcess(r.excess)) + (SumMaterials(r.materials) - SumMaterials(l.materials)) == item.stack * batches
  {
    var need := item.stack * batches;
    var t := item.itemType;
    if t in l.excessIndex && l.excess[l.excessIndex[t]].stack >= need {
      DrainEntryFacts(l.excess, l.excessIndex[t], need);
      ReplaceExcessSound(l, DrainEntry(l.excess, l.excessIndex[t], need).0);
    } else {
      var (excess1, need1) :=
        if t in l.excessIndex then DrainEntry(l.excess, l.excessIndex[t], need) else (l.excess, need);
      if t in l.excessIndex {
        DrainEntryFacts(l.excess, l.excessIndex[t], need);
      }
      match FirstGroup(groups, recipe.acceptedGroups, t)
      case Some(g) =>
        var (excess2, need2, jumped) := DrainGroup(excess1, l.excessIndex, groups[g], need1);
        DrainGroupFacts(excess1, l.excessIndex, groups[g], need1);
        ReplaceExcessSound(l, excess2);
        MergeMaterialSound(l.(excess := excess2), GroupKey(g), need2);
        MergeMaterialFacts(l.(excess := excess2), GroupKey(g), need2);
      case None =>
        ReplaceExcessSound(l, excess1);
        MergeMaterialSound(l.(excess := excess1), ItemKey(t), need1);
        MergeMaterialFacts(l.(excess := excess1), ItemKey(t), need1);
    }
  }

  /** When the exact type has an excess entry that covers the need, the
      material list is not touched and that entry shrinks by the need. */
  lemma {:induction false} ExactExcessCovers(l: Ledger, groups: GroupRegistry, recipe: Recipe, item: Item, batches: nat)
    requires Sound(l) && WellFormedRecipe(groups, recipe)
    requires item.itemType in l.excessIndex && ExcessOf(l, item.itemType) >= item.stack * batches
    ensures var r := ConsumeIngredient(l, groups, recipe, item, batches);
      && r.materials == l.materials && r.materialIndex == l.materialIndex && r.excessIndex == l.excessIndex
      && ExcessOf(r, item.itemType) == ExcessOf(l, item.itemType) - item.stack * batches
      && (forall t :: t != item.itemType ==> ExcessOf(r, t) == ExcessOf(l, t))
  {
    var t := item.itemType;
    forall u | u != t && u in l.excessIndex ensures l.excessIndex[u] != l.excessIndex[t] {
      assert l.excess[l.excessIndex[u]].itemType == u;
    }
  }

  /** Draining a shortfall from the exact type's entry empties that entry,
      keeps the ledger sound and leaves exactly the uncovered part. */
  lemma {:induction false} ExactShortfallFacts(l: Ledger, t: int, need: int)
    requires Sound(l) && ExcessOf(l, t) < need
    ensures var (excess1, need1) :=
        if t in l.excessIndex && l.excessIndex[t] < |l.excess| then DrainEntry(l.excess, l.excessIndex[t], need)
        else (l.excess, need);
      && Sound(l.(excess := excess1))
      && ExcessOf(l.(excess := excess1), t) == 0
      && need1 == need - ExcessOf(l, t)
  {
    if t in l.excessIndex {
      DrainEntryFacts(l.excess, l.excessIndex[t], need);
      ReplaceExcessSound(l, DrainEntry(l.excess, l.excessIndex[t], need).0);
    }
  }

  /** Draining a group keeps the ledger sound and never raises the need. */
  lemma {:induction false} GroupDrainSound(l: Ledger, validItems: seq<int>, need: int)
    requires Sound(l) && need >= 0
    ensures var (excess2, need2, jumped) := DrainGroup(l.excess, l.excessIndex, validItems, need);
      && !jumped && Sound(l.(excess := excess2)) && 0 <= need2 <= need
  {
    DrainGroupFacts(l.excess, l.excessIndex, validItems, need);
    ReplaceExcessSound(l, DrainGroup(l.excess, l.excessIndex, validItems, need).0);
  }

  /** With a shortfall and no accepted group holding the type, the ingredient
      is a merge of the uncovered part under the item's key into the ledger
      whose exact-type entry has been emptied. */
  lemma {:induction false} ItemBranch(l: Ledger, groups: GroupRegistry, recipe: Recipe, item: Item, batches: nat)
      returns (l1: Ledger, need1: int)
    requires Sound(l) && WellFormedRecipe(groups, recipe)
    requires ExcessOf(l, item.itemType) < item.stack * batches
    requires forall k :: 0 <= k < |recipe.acceptedGroups| ==> !ContainsItem(groups, recipe.acceptedGroups[k], item.itemType)
    ensures ConsumeIngredient(l, groups, recipe, item, batches) == MergeMaterial(l1, ItemKey(item.itemType), need1)
    ensures Indexed(l1) && l1.materials == l.materials && l1.materialIndex == l.materialIndex
    ensures ExcessOf(l1, item.itemType) == 0 && need1 == item.stack * batches - ExcessOf(l, item.itemType)
  {
    var need := item.stack * batches;
    var t := item.itemType;
    var (excess1, n1) :=
      if t in l.excessIndex && l.excessIndex[t] < |l.excess| then DrainEntry(l.excess, l.excessIndex[t], need)
      else (l.excess, need);
    ExactShortfallFacts(l, t, need);
    if FirstGroup(groups, recipe.acceptedGroups, t).Some? {
      assert false;
    }
    l1, need1 := l.(excess := excess1), n1;
  }

  /** When the exact type's excess falls short and no accepted group holds
      the type, the shortfall is recorded under the item's own key. */
  lemma {:induction false} ShortfallUnderItem(l: Ledger, groups: GroupRegistry, recipe: Recipe, item: Item, batches: nat)
    requires Sound(l) && WellFormedRecipe(groups, recipe)
    requires ExcessOf(l, item.itemType) < item.stack * batches
    requires forall k :: 0 <= k < |recipe.acceptedGroups| ==> !ContainsItem(groups, recipe.acceptedGroups[k], item.itemType)
    ensures var r := ConsumeIngredient(l, groups, recipe, item, batches);
      && ExcessOf(r, item.itemType) == 0
      && MaterialOf(r, ItemKey(item.itemType)) == MaterialOf(l, ItemKey(item.itemType)) + item.stack * batches - ExcessOf(l, item.itemType)
      && (forall k :: k != ItemKey(item.itemType) ==> MaterialOf(r, k) == MaterialOf(l, k))
  {
    var l1, need1 := ItemBranch(l, groups, recipe, item, batches);
    MergeMaterialFacts(l1, ItemKey(item.itemType), need1);
  }

  /** With a shortfall and `g` the first accepted group holding the type, the
      ingredient is a merge under the group's key into the ledger drained of
      the exact type and of the group's members. */
  lemma {:induction false} GroupBranch(l: Ledger, groups: GroupRegistry, recipe: Recipe, item: Item, batches: nat, g: int)
      returns (l2: Ledger, need2: int)
    requires Sound(l) && WellFormedRecipe(groups, recipe)
    requires ExcessOf(l, item.itemType) < item.stack * batches
    requires FirstGroup(groups, recipe.acceptedGroups, item.itemType) == Some(g)
    ensures ConsumeIngredient(l, groups, recipe, item, batches) == MergeMaterial(l2, GroupKey(g), need2)
    ensures Indexed(l2) && l2.materials == l.materials && l2.materialIndex == l.materialIndex
    ensures 0 <= need2 <= item.stack * batches - ExcessOf(l, item.itemType)
  {
    var need := item.stack * batches;
    var t := item.itemType;
    var (excess1, need1) :=
      if t in l.excessIndex && l.excessIndex[t] < |l.excess| then DrainEntry(l.excess, l.excessIndex[t], need)
      else (l.excess, need);
    ExactShortfallFacts(l, t, need);
    var l1 := l.(excess := excess1);
    GroupDrainSound(l1, groups[g], need1);
    var (excess2, n2, jumped) := DrainGroup(l1.excess, l1.excessIndex, groups[g], need1);
    l2, need2 := l1.(excess := excess2), n2;
  }

  /** When the exact type's excess falls short and an accepted group holds
      the type, what the group members' excess does not cover is recorded
      under the first such group's key, and no other material changes. */
  lemma {:induction false} ShortfallUnderGroup(l: Ledger, groups: GroupRegistry, recipe: Recipe, item: Item, batches: nat, g: int)
    requires Sound(l) && WellFormedRecipe(groups, recipe)
    requires ExcessOf(l, item.itemType) < item.stack * batches
    requires FirstGroup(groups, recipe.acceptedGroups, item.itemType) == Some(g)
    ensures var r := ConsumeIngredient(l, groups, recipe, item, batches);
      && 0 <= MaterialOf(r, GroupKey(g)) - MaterialOf(l, GroupKey(g)) <= item.stack * batches - ExcessOf(l, item.itemType)
      && (forall k :: k != GroupKey(g) ==> MaterialOf(r, k) == MaterialOf(l, k))
  {
    var l2, need2 := GroupBranch(l, groups, recipe, item, batches, g);
    MergeMaterialFacts(l2, GroupKey(g), need2);
  }

  /** What `batches` crafts need of all ingredient slots together. */
  function TotalNeed(items: seq<Item>, batches: nat): nat
  {
    if items == [] then 0 else items[0].stack * batches + TotalNeed(items[1..], batches)
  }

  /** All ingredient slots: the ledger stays sound and the whole need is
      either drawn from the excess pool or recorded as materials. */
  lemma {:induction false} ConsumeAllFacts(l: Ledger, groups: GroupRegistry, recipe: Recipe, items: seq<Item>, batches: nat)
    requires Sound(l) && WellFormedRecipe(groups, recipe)
    ensures var r := ConsumeAll(l, groups, recipe, items, batches);
      && Sound(r)
      && (SumExcess(l.excess) - SumExcess(r.excess)) + (SumMaterials(r.materials) - SumMaterials(l.materials)) == TotalNeed(items, batches)
    decreases |items|
  {
    if items != [] {
      ConsumeIngredientFacts(l, groups, recipe, items[0], batches);
      ConsumeAllFacts(ConsumeIngredient(l, groups, recipe, items[0], batches), groups, recipe, items[1..], batches);
    }
  }

  /** A live context crafts whole batches covering its amount; afterwards the
      pool holds, per type, what the ingredients left plus the result stack of
      all batches and the drops. */
  lemma {:induction false} ProcessContextFacts(l: Ledger, groups: GroupRegistry, drops: DropHook, ctx: RecipeContext)
    requires Sound(l) && WellFormedRecipe(groups, ctx.recipe)
    ensures Sound(ProcessContext(l, groups, drops, ctx))
    ensures ctx.amountToCraft > 0 ==>
      var batches := Batches(ctx.amountToCraft, ctx.recipe.createItem.stack);
      var consumed := ConsumeAll(l, groups, ctx.recipe, ctx.recipe.requiredItem, batches);
      var r := ProcessContext(l, groups, drops, ctx);
      && r.materials == consumed.materials
      && (SumExcess(l.excess) - SumExcess(consumed.excess)) + (SumMaterials(r.materials) - SumMaterials(l.materials))
           == TotalNeed(ctx.recipe.requiredItem, batches)
      && (forall t :: ExcessOf(r, t) == ExcessOf(consumed, t)
            + (if t == ctx.recipe.createItem.itemType then ctx.recipe.createItem.stack * batches else 0)
            + CountOf(drops(ctx.recipe, batches), t))
  {
    if ctx.amountToCraft > 0 {
      var batches := Batches(ctx.amountToCraft, ctx.recipe.createItem.stack);
      var consumed := ConsumeAll(l, groups, ctx.recipe, ctx.recipe.requiredItem, batches);
      var outs := Outputs(ctx.recipe, batches, drops);
      ConsumeAllFacts(l, groups, ctx.recipe, ctx.recipe.requiredItem, batches);
      AddResultsFacts(consumed, outs);
      assert outs[1..] == drops(ctx.recipe, batches);
    }
  }

  lemma {:induction false} AggregateSound(l: Ledger, groups: GroupRegistry, drops: DropHook, ctxs: seq<RecipeContext>)
    requires Sound(l) && AllWellFormed(groups, ctxs)
    ensures Sound(Aggregate(l, groups, drops, ctxs))
    decreases |ctxs|
  {
    if ctxs != [] {
      ProcessContextFacts(l, groups, drops, ctxs[0]);
      AggregateSound(ProcessContext(l, groups, drops, ctxs[0]), groups, drops, ctxs[1..]);
    }
  }

  /** The contexts that still have something to craft, in order. */
  function Live(ctxs: seq<RecipeContext>): (r: seq<RecipeContext>)
    ensures |r| <= |ctxs|
    ensures forall i :: 0 <= i < |r| ==> r[i].amountToCraft > 0 && r[i] in ctxs
    ensures forall c :: c in ctxs && c.amountToCraft > 0 ==> c in r
  {
    if ctxs == [] then []
    else if ctxs[0].amountToCraft > 0 then [ctxs[0]] + Live(ctxs[1..])
    else Live(ctxs[1..])
  }

  /** Trimmed (and otherwise exhausted) contexts contribute nothing: the
      aggregation over a processing order equals the aggregation over its
      live contexts alone. */
  lemma {:induction false} DeadContextsContributeNothing(l: Ledger, groups: GroupRegistry, drops: DropHook, ctxs: seq<RecipeContext>)
    requires AllWellFormed(groups, ctxs)
    ensures AllWellFormed(groups, Live(ctxs))
    ensures Aggregate(l, groups, drops, ctxs) == Aggregate(l, groups, drops, Live(ctxs))
    decreases |ctxs|
  {
    if ctxs != [] {
      assert AllWellFormed(groups, ctxs[1..]) by {
        forall i | 0 <= i < |ctxs[1..]| ensures WellFormedRecipe(groups, ctxs[1..][i].recipe) {
          assert ctxs[1..][i] == ctxs[i + 1];
        }
      }
      if ctxs[0].amountToCraft > 0 {
        DeadContextsContributeNothing(ProcessContext(l, groups, drops, ctxs[0]), groups, drops, ctxs[1..]);
        var live := Live(ctxs);
        assert live[0] == ctxs[0] && live[1..] == Live(ctxs[1..]);
      } else {
        DeadContextsContributeNothing(l, groups, drops, ctxs[1..]);
      }
    }
  }

  // ---------------------------------------------------------------------
  // The aggregation step by step
  // ---------------------------------------------------------------------

  ghost predicate IndexWithin(index: map<int, nat>, n: nat)
  {
    forall t :: t in index ==> index[t] < n
  }

  /** Drains a need from the excess entries of a group's valid items. */
  method DrainGroupExcess(excess0: seq<ItemInfo>, index: map<int, nat>, validItems: seq<int>, need0: int)
    returns (excess: seq<ItemInfo>, need: int, jumped: bool)
    requires IndexWithin(index, |excess0|)
    ensures (excess, need, jumped) == DrainGroup(excess0, index, validItems, need0)
  {
    excess, need, jumped := excess0, need0, false;
    var i := 0;
    while i < |validItems|
      invariant 0 <= i <= |validItems| && |excess| == |excess0|
      invariant DrainGroup(excess, index, validItems[i..], need) == DrainGroup(excess0, index, validItems, need0)
    {
      var groupItem := validItems[i];
      assert validItems[i..][0] == groupItem && validItems[i..][1..] == validItems[i + 1..];
      if groupItem in index {
        var excessIndex := index[groupItem];
        var info := excess[excessIndex];
        if info.stack >= need {
          excess := excess[excessIndex := info.(stack := info.stack - need)];
          need := 0;
          i := i + 1;
          continue;
        } else {
          need := need - info.stack;
          excess := excess[excessIndex := info.(stack := 0)];
        }
        if need <= 0 {
          jumped := true;
          return;
        }
      }
      i := i + 1;
    }
    assert validItems[i..] == [];
  }

  /** Meets the need of one ingredient slot. */
  method ConsumeIngredientStep(l: Ledger, groups: GroupRegistry, recipe: Recipe, item: Item, batches: int) returns (r: Ledger)
    requires Indexed(l) && WellFormedRecipe(groups, recipe)
    ensures r == ConsumeIngredient(l, groups, recipe, item, batches)
  {
    var stack := item.stack * batches;
    var excess := l.excess;
    if item.itemType in l.excessIndex {
      var excessIndex := l.excessIndex[item.itemType];
      var info := excess[excessIndex];
      if info.stack >= stack {
        r := l.(excess := excess[excessIndex := info.(stack := info.stack - stack)]);
        return;
      } else {
        stack := stack - info.stack;
        excess := excess[excessIndex := info.(stack := 0)];
      }
    }
    var k := 0;
    while k < |recipe.acceptedGroups|
      invariant 0 <= k <= |recipe.acceptedGroups|
      invariant FirstGroup(groups, recipe.acceptedGroups[k..], item.itemType) == FirstGroup(groups, recipe.acceptedGroups, item.itemType)
    {
      var groupID := recipe.acceptedGroups[k];
      assert recipe.acceptedGroups[k..][0] == groupID && recipe.acceptedGroups[k..][1..] == recipe.acceptedGroups[k + 1..];
      if item.itemType in groups[groupID] {
        var jumped;
        excess, stack, jumped := DrainGroupExcess(excess, l.excessIndex, groups[groupID], stack);
        if jumped {
          r := l.(excess := excess);
        } else {
          r := MergeMaterial(l.(excess := excess), GroupKey(groupID), stack);
        }
        return;
      }
      k := k + 1;
    }
    assert recipe.acceptedGroups[k..] == [];
    r := MergeMaterial(l.(excess := excess), ItemKey(item.itemType), stack);
  }

  /** Processes one context of the processing order. */
  method ProcessContextStep(l: Ledger, groups: GroupRegistry, drops: DropHook, ctx: RecipeContext) returns (r: Ledger)
    requires Sound(l) && WellFormedRecipe(groups, ctx.recipe)
    ensures r == ProcessContext(l, groups, drops, ctx)
  {
    if ctx.amountToCraft <= 0 {
      return l;
    }
    var recipe := ctx.recipe;
    var ingredientBatches := Batches(ctx.amountToCraft, recipe.createItem.stack);
    r := l;
    var j := 0;
    while j < |recipe.requiredItem|
      invariant 0 <= j <= |recipe.requiredItem| && Sound(r)
      invariant ConsumeAll(r, groups, recipe, recipe.requiredItem[j..], ingredientBatches)
             == ConsumeAll(l, groups, recipe, recipe.requiredItem, ingredientBatches)
    {
      assert recipe.requiredItem[j..][1..] == recipe.requiredItem[j + 1..];
      ConsumeIngredientFacts(r, groups, recipe, recipe.requiredItem[j], ingredientBatches);
      r := ConsumeIngredientStep(r, groups, recipe, recipe.requiredItem[j], ingredientBatches);
      j := j + 1;
    }
    assert recipe.requiredItem[j..] == [];
    ghost var consumed := r;
    var outputs := Outputs(recipe, ingredientBatches, drops);
    j := 0;
    while j < |outputs|
      invariant 0 <= j <= |outputs|
      invariant AddResults(r, outputs[j..]) == AddResults(consumed, outputs)
    {
      assert outputs[j..][1..] == outputs[j + 1..];
      r := AddResult(r, outputs[j]);
      j := j + 1;
    }
    assert outputs[j..] == [];
  }
}
