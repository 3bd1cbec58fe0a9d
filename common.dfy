/** Shared vocabulary of the recursive-crafting core: items, recipes, recipe
    groups, the saturating counter and the batch arithmetic. */
module Common {

  datatype Option<T> = None | Some(value: T)

  /** The largest value of a 32-bit signed integer (`int.MaxValue`). */
  const IntMax: int := 0x7FFF_FFFF

  /** An item type with a stack size. Stack sizes are never negative. */
  datatype Item = Item(itemType: int, stack: nat)

  /** A recipe of the external recipe database. `id` stands for the recipe
      object's identity: two recipes are the same object exactly when their
      values are equal. */
  datatype Recipe = Recipe(id: nat, createItem: Item, requiredItem: seq<Item>, acceptedGroups: seq<int>)

  /** A node's context in the ordered recipe tree: the recipe, its depth in
      the tree and how many result items it still has to craft. */
  datatype RecipeContext = RecipeContext(recipe: Recipe, depth: int, amountToCraft: int)

  /** The recipe-group registry: group id to the group's valid item types. */
  type GroupRegistry = map<int, seq<int>>

  predicate ContainsItem(groups: GroupRegistry, groupId: int, itemType: int)
  {
    groupId in groups && itemType in groups[groupId]
  }

  /** A recipe the aggregation can process: it produces a non-empty stack and
      every group it accepts is registered. */
  predicate WellFormedRecipe(groups: GroupRegistry, r: Recipe)
  {
    r.createItem.stack > 0 && forall k :: 0 <= k < |r.acceptedGroups| ==> r.acceptedGroups[k] in groups
  }

  /** Whether `recipe` accepts a recipe group holding both item types. */
  predicate RecipeGroupMatch(groups: GroupRegistry, recipe: Recipe, inventoryType: int, requiredType: int)
  {
    exists k :: 0 <= k < |recipe.acceptedGroups| &&
      ContainsItem(groups, recipe.acceptedGroups[k], inventoryType) &&
      ContainsItem(groups, recipe.acceptedGroups[k], requiredType)
  }

  /** Saturating addition of the clamped counter: the result stays in [0, IntMax]. */
  function ClampedAdd(a: int, b: int): (r: int)
    ensures 0 <= r <= IntMax
    ensures 0 <= a + b <= IntMax ==> r == a + b
    ensures a + b < 0 ==> r == 0
    ensures a + b > IntMax ==> r == IntMax
  {
    if a + b < 0 then 0 else if a + b > IntMax then IntMax else a + b
  }

  /** `(int)Math.Ceiling(a / (double)b)` on integers, for a positive divisor. */
  function CeilDiv(a: int, b: int): int
    requires b > 0
  {
    -((-a) / b)
  }

  /** The ceiling quotient is the least number of whole batches of size `b`
      that cover `a`. */
  lemma CeilDivBounds(a: int, b: int)
    requires b > 0
    ensures CeilDiv(a, b) * b >= a
    ensures CeilDiv(a, b) * b < a + b
  {
    var q := (-a) / b;
    var m := (-a) % b;
    assert -a == q * b + m && 0 <= m < b;
    assert CeilDiv(a, b) * b == -(q * b);
  }
}
