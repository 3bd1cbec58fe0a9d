/** The recursive recipe resolver: it expands a recipe into an ordered recipe
    tree depth-first, counts what an inventory holds of a recipe's result,
    aggregates the tree's materials and derives how many crafts an inventory
    can afford. */
module Resolver {
  import opened Common
  import opened Materials
  import opened RecipeTree

  // ---------------------------------------------------------------------
  // The recipe database and the configuration
  // ---------------------------------------------------------------------

  /** What the resolver asks of the recipe database, for one inventory.
      `select(r, i)` is the recipe chosen for ingredient slot `i` of `r`
      (`None` when the slot has no candidate recipe); `hasRecursive(r)` says
      whether `r` has a recursive recipe and `hasRoot(r)` whether that
      recipe's recursion tree has a root. `itemTypes` are the item types the
      game defines. */
  datatype Catalogue = Catalogue(
    itemTypes: set<int>,
    groups: GroupRegistry,
    select: (Recipe, nat) -> Option<Recipe>,
    hasRecursive: Recipe -> bool,
    hasRoot: Recipe -> bool)

  /** The recursion settings: whether recursion is on, and the depth limit
      (`None` when recursion is infinite). */
  datatype Config = Config(recursionEnabled: bool, depthLimit: Option<int>)

  /** A recipe the resolver can plan: well formed, with a known result type. */
  ghost predicate Plannable(cat: Catalogue, r: Recipe)
  {
    WellFormedRecipe(cat.groups, r) && r.createItem.itemType in cat.itemTypes
  }

  /** Every recipe the database selects is plannable. */
  ghost predicate CatalogueOk(cat: Catalogue)
  {
    forall r, i :: cat.select(r, i).Some? ==> Plannable(cat, cat.select(r, i).value)
  }

  // ---------------------------------------------------------------------
  // Batch arithmetic
  // ---------------------------------------------------------------------

  /** The root of a crafting tree: depth 0, the amount rounded up to whole
      batches of the recipe's result stack. */
  function RootContext(original: Recipe, amountToCraft: int): RecipeContext
    requires original.createItem.stack > 0
  {
    var batchSize := original.createItem.stack;
    RecipeContext(original, 0, CeilDiv(amountToCraft, batchSize) * batchSize)
  }

  /** The root crafts whole batches: the least multiple of the batch size
      that covers the requested amount. */
  lemma RootWholeBatches(original: Recipe, amountToCraft: int)
    requires original.createItem.stack > 0
    ensures RootContext(original, amountToCraft).depth == 0
    ensures RootContext(original, amountToCraft).amountToCraft % original.createItem.stack == 0
    ensures amountToCraft <= RootContext(original, amountToCraft).amountToCraft < amountToCraft + original.createItem.stack
  {
    CeilDivBounds(amountToCraft, original.createItem.stack);
    MultipleMod(CeilDiv(amountToCraft, original.createItem.stack), original.createItem.stack);
  }

  lemma MultipleMod(q: int, b: int)
    requires b > 0
    ensures (q * b) % b == 0
  {
    var d, r := (q * b) / b, (q * b) % b;
    assert (q - d) * b == r;
    if q - d >= 1 {
      assert false;
    } else if q - d <= -1 {
      assert false;
    }
  }

  /** How many batches of a child recipe one ingredient slot needs for
      `parentBatches` batches of its parent. */
  function ChildBatches(requiredPerCraft: int, parentBatches: int, batchSize: int): int
    requires batchSize > 0
  {
    CeilDiv(requiredPerCraft * parentBatches, batchSize)
  }

  /** The amount a child node crafts: the slot's per-craft requirement,
      capped by what its batches make. */
  function ChildAmount(requiredPerCraft: int, parentBatches: int, batchSize: int): (a: int)
    requires batchSize > 0
    ensures a <= requiredPerCraft
    ensures a <= ChildBatches(requiredPerCraft, parentBatches, batchSize) * batchSize
    ensures a == requiredPerCraft || a == ChildBatches(requiredPerCraft, parentBatches, batchSize) * batchSize
  {
    var batches := ChildBatches(requiredPerCraft, parentBatches, batchSize);
    if requiredPerCraft <= batches * batchSize then requiredPerCraft else batches * batchSize
  }

  /** The child's batches cover its share of all the parent's batches, so
      for a parent that crafts at least once the child crafts exactly the
      per-craft requirement, whatever the number of parent batches. */
  lemma ChildAmountPerCraft(requiredPerCraft: nat, parentBatches: int, batchSize: int)
    requires batchSize > 0
    ensures ChildBatches(requiredPerCraft, parentBatches, batchSize) * batchSize >= requiredPerCraft * parentBatches
    ensures parentBatches >= 0 ==> ChildAmount(requiredPerCraft, parentBatches, batchSize) >= 0
    ensures parentBatches >= 1 ==> ChildAmount(requiredPerCraft, parentBatches, batchSize) == requiredPerCraft
  {
    CeilDivBounds(requiredPerCraft * parentBatches, batchSize);
    if parentBatches >= 1 {
      assert requiredPerCraft * parentBatches >= requiredPerCraft * 1;
    }
    if parentBatches >= 0 {
      assert requiredPerCraft * parentBatches >= 0;
    }
  }

  // ---------------------------------------------------------------------
  // Which ingredient slots get a child node
  // ---------------------------------------------------------------------

  /** An ingredient is skipped when it is the blocked item, directly or
      through a recipe group of the source recipe. */
  predicate Blocked(groups: GroupRegistry, source: Recipe, ignoreItem: int, requiredType: int)
  {
    (ignoreItem > 0 && ignoreItem == requiredType) || RecipeGroupMatch(groups, source, ignoreItem, requiredType)
  }

  predicate SlotExpands(cat: Catalogue, recipe: Recipe, ignoreItem: int, i: nat)
    requires i < |recipe.requiredItem|
  {
    cat.select(recipe, i).Some? && !Blocked(cat.groups, recipe, ignoreItem, recipe.requiredItem[i].itemType)
  }

  /** The slots from `i` on that get a child node, in ingredient order. */
  function ChildSlots(cat: Catalogue, recipe: Recipe, ignoreItem: int, i: nat): seq<nat>
    requires i <= |recipe.requiredItem|
    decreases |recipe.requiredItem| - i
  {
    if i == |recipe.requiredItem| then []
    else if SlotExpands(cat, recipe, ignoreItem, i) then [i] + ChildSlots(cat, recipe, ignoreItem, i + 1)
    else ChildSlots(cat, recipe, ignoreItem, i + 1)
  }

  /** The child slots are slots that can expand, in increasing order. */
  lemma {:induction false} ChildSlotsSound(cat: Catalogue, recipe: Recipe, ignoreItem: int, i: nat)
    requires i <= |recipe.requiredItem|
    ensures forall k :: 0 <= k < |ChildSlots(cat, recipe, ignoreItem, i)| ==>
      i <= ChildSlots(cat, recipe, ignoreItem, i)[k] < |recipe.requiredItem| &&
      SlotExpands(cat, recipe, ignoreItem, ChildSlots(cat, recipe, ignoreItem, i)[k])
    ensures forall k, m :: 0 <= k < m < |ChildSlots(cat, recipe, ignoreItem, i)| ==>
      ChildSlots(cat, recipe, ignoreItem, i)[k] < ChildSlots(cat, recipe, ignoreItem, i)[m]
    decreases |recipe.requiredItem| - i
  {
    if i < |recipe.requiredItem| {
      ChildSlotsSound(cat, recipe, ignoreItem, i + 1);
      var t := ChildSlots(cat, recipe, ignoreItem, i + 1);
      if SlotExpands(cat, recipe, ignoreItem, i) {
        var s := [i] + t;
        assert s == ChildSlots(cat, recipe, ignoreItem, i);
        forall k, m | 0 <= k < m < |s| ensures s[k] < s[m] {
          assert s[m] == t[m - 1];
          if k > 0 {
            assert s[k] == t[k - 1];
          }
        }
        forall k | 0 <= k < |s| ensures i <= s[k] < |recipe.requiredItem| && SlotExpands(cat, recipe, ignoreItem, s[k]) {
          if k > 0 {
            assert s[k] == t[k - 1];
          }
        }
      }
    }
  }

  /** Every slot that can expand is among the child slots. */
  lemma {:induction false} ChildSlotsComplete(cat: Catalogue, recipe: Recipe, ignoreItem: int, i: nat, j: nat)
    requires i <= j < |recipe.requiredItem| && SlotExpands(cat, recipe, ignoreItem, j)
    ensures j in ChildSlots(cat, recipe, ignoreItem, i)
    decreases j - i
  {
    if i < j {
      ChildSlotsComplete(cat, recipe, ignoreItem, i + 1, j);
    }
  }

  /** The context of the child node planned for slot `i`. */
  function ChildContext(cat: Catalogue, recipe: Recipe, i: nat, depth: int, parentBatches: int): RecipeContext
    requires CatalogueOk(cat) && i < |recipe.requiredItem| && cat.select(recipe, i).Some?
  {
    var chosen := cat.select(recipe, i).value;
    RecipeContext(chosen, depth, ChildAmount(recipe.requiredItem[i].stack, parentBatches, chosen.createItem.stack))
  }

  /** Whether an expansion step for `recipe` does anything: the depth limit
      is not reached, the recipe has a recursion tree and its result type is
      not already on the recursion stack. */
  predicate Expands(cat: Catalogue, config: Config, recursionStack: set<int>, depth: int, recipe: Recipe)
  {
    && (config.depthLimit.None? || depth < config.depthLimit.value)
    && cat.hasRoot(recipe)
    && recipe.createItem.itemType !in recursionStack
  }


  // ---------------------------------------------------------------------
  // How the arena grows during an expansion
  // ---------------------------------------------------------------------

  /** The arena only grows: existing contexts, back-references and planned
      batch counts stay. */
  ghost predicate Extends(c0: seq<RecipeContext>, r0: seq<int>, b0: seq<int>,
                          c: seq<RecipeContext>, r: seq<int>, b: seq<int>)
  {
    && |r0| == |c0| == |b0| <= |c| == |r| == |b|
    && c[..|c0|] == c0 && r[..|r0|] == r0 && b[..|b0|] == b0
  }

  /** No existing node other than `root` gets new children. */
  ghost predicate LeavesKept(l0: seq<seq<nat>>, l: seq<seq<nat>>, root: nat)
  {
    |l0| <= |l| && forall x :: 0 <= x < |l0| && x != root ==> l[x] == l0[x]
  }

  /** The nodes from `n0` on carry plannable recipes and lie strictly below
      depth `lo`, no deeper than `hi` and within the depth limit. */
  ghost predicate NewNodesWithin(cat: Catalogue, c: seq<RecipeContext>, n0: nat, lo: int, hi: int, limit: Option<int>)
  {
    forall x :: n0 <= x < |c| ==>
      Plannable(cat, c[x].recipe) && lo < c[x].depth <= hi && (limit.Some? ==> c[x].depth <= limit.value)
  }

  /** The result types of the nodes above `x`, found by following the
      back-references: the recursion stack while `x` is expanded. */
  ghost function AncestorTypes(c: seq<RecipeContext>, r: seq<int>, x: nat): set<int>
    requires x < |c| == |r|
    decreases x
  {
    if 0 <= r[x] < x then AncestorTypes(c, r, r[x]) + {c[r[x]].recipe.createItem.itemType} else {}
  }

  /** Whether node `x` below the root is expanded in turn: its recipe has a
      recursive recipe, and the expansion step goes ahead (depth limit,
      recursion tree, recursion guard) with its ancestors' result types as
      the recursion stack. */
  ghost predicate Recurses(cat: Catalogue, config: Config, c: seq<RecipeContext>, r: seq<int>, x: nat)
    requires x < |c| == |r|
  {
    cat.hasRecursive(c[x].recipe) && Expands(cat, config, AncestorTypes(c, r, x), c[x].depth, c[x].recipe)
  }

  /** The children of the expanded node from position `base` of its list
      are new nodes carrying the contexts and batch counts planned for
      `slots`, in order. */
  ghost predicate Planned(cat: Catalogue, recipe: Recipe, depth: int, parentBatches: int,
                          rootLeaves: seq<nat>, base: nat, slots: seq<nat>, c: seq<RecipeContext>, b: seq<int>, n0: nat)
    requires CatalogueOk(cat)
  {
    && |rootLeaves| == base + |slots|
    && forall k :: 0 <= k < |slots| ==> PlannedAt(cat, recipe, depth, parentBatches, slots[k], rootLeaves[base + k], c, b, n0)
  }

  /** Node `x` is a new node carrying the context planned for `slot`, and
      the number of batches its own children are planned for. */
  ghost predicate PlannedAt(cat: Catalogue, recipe: Recipe, depth: int, parentBatches: int,
                            slot: nat, x: nat, c: seq<RecipeContext>, b: seq<int>, n0: nat)
    requires CatalogueOk(cat)
  {
    && slot < |recipe.requiredItem| && cat.select(recipe, slot).Some?
    && n0 <= x < |c| && x < |b|
    && c[x] == ChildContext(cat, recipe, slot, depth, parentBatches)
    && b[x] == ChildBatches(recipe.requiredItem[slot].stack, parentBatches, cat.select(recipe, slot).value.createItem.stack)
  }

  /** Node `x` was expanded for its planned batch count: its children are
      nodes after it carrying the contexts planned, one level further down,
      for its child slots. */
  ghost predicate ExpandedFor(cat: Catalogue, ignoreItem: int, c: seq<RecipeContext>, l: seq<seq<nat>>, b: seq<int>, x: nat)
    requires CatalogueOk(cat) && x < |c| && x < |l| && x < |b|
  {
    Planned(cat, c[x].recipe, c[x].depth + 1, b[x], l[x], 0, ChildSlots(cat, c[x].recipe, ignoreItem, 0), c, b, x + 1)
  }

  /** Node `x` is expanded when it recurses, and a leaf otherwise. */
  ghost predicate NodeExact(cat: Catalogue, config: Config, ignoreItem: int,
                            c: seq<RecipeContext>, l: seq<seq<nat>>, r: seq<int>, b: seq<int>, x: nat)
    requires CatalogueOk(cat) && x < |c| == |l| == |r| == |b|
  {
    if Recurses(cat, config, c, r, x) then ExpandedFor(cat, ignoreItem, c, l, b, x) else l[x] == []
  }

  /** Every node from `n0` on is expanded exactly when it recurses. */
  ghost predicate NewNodesExact(cat: Catalogue, config: Config, ignoreItem: int,
                                c: seq<RecipeContext>, l: seq<seq<nat>>, r: seq<int>, b: seq<int>, n0: nat)
    requires CatalogueOk(cat)
  {
    |c| == |l| == |r| == |b| && forall x :: n0 <= x < |c| ==> NodeExact(cat, config, ignoreItem, c, l, r, b, x)
  }

  /** Every node from `n0` on is a child of the node its back-reference
      names, which comes before it. */
  ghost predicate NewNodesAttached(l: seq<seq<nat>>, r: seq<int>, n0: nat)
  {
    |r| == |l| && forall x :: n0 <= x < |l| ==> 0 <= r[x] < x && x in l[r[x]]
  }

  lemma {:induction false} ExtendsTrans(c0: seq<RecipeContext>, r0: seq<int>, b0: seq<int>,
                                        c1: seq<RecipeContext>, r1: seq<int>, b1: seq<int>,
                                        c2: seq<RecipeContext>, r2: seq<int>, b2: seq<int>)
    requires Extends(c0, r0, b0, c1, r1, b1) && Extends(c1, r1, b1, c2, r2, b2)
    ensures Extends(c0, r0, b0, c2, r2, b2)
  {
    assert c2[..|c0|] == c2[..|c1|][..|c0|];
    assert r2[..|r0|] == r2[..|r1|][..|r0|];
    assert b2[..|b0|] == b2[..|b1|][..|b0|];
  }

  /** The ancestors of an existing node stay the same while the arena grows. */
  lemma {:induction false} AncestorTypesKept(c0: seq<RecipeContext>, r0: seq<int>, c: seq<RecipeContext>, r: seq<int>, x: nat)
    requires |r0| == |c0| <= |c| == |r| && c[..|c0|] == c0 && r[..|r0|] == r0 && x < |c0|
    ensures AncestorTypes(c, r, x) == AncestorTypes(c0, r0, x)
    decreases x
  {
    assert r[x] == r[..|r0|][x];
    if 0 <= r0[x] < x {
      AncestorTypesKept(c0, r0, c, r, r0[x]);
      assert c[r0[x]] == c[..|c0|][r0[x]];
    }
  }

  /** Planned children stay planned while the arena grows. */
  lemma {:induction false} PlannedKept(cat: Catalogue, recipe: Recipe, depth: int, parentBatches: int,
                                       rootLeaves: seq<nat>, base: nat, slots: seq<nat>, c: seq<RecipeContext>, b: seq<int>,
                                       n0: nat, r: seq<int>, c': seq<RecipeContext>, r': seq<int>, b': seq<int>)
    requires CatalogueOk(cat) && Planned(cat, recipe, depth, parentBatches, rootLeaves, base, slots, c, b, n0)
    requires Extends(c, r, b, c', r', b')
    ensures Planned(cat, recipe, depth, parentBatches, rootLeaves, base, slots, c', b', n0)
  {
    forall k | 0 <= k < |slots|
      ensures PlannedAt(cat, recipe, depth, parentBatches, slots[k], rootLeaves[base + k], c', b', n0)
    {
      var x := rootLeaves[base + k];
      assert PlannedAt(cat, recipe, depth, parentBatches, slots[k], x, c, b, n0);
      assert c'[..|c|][x] == c[x];
      assert b'[..|b|][x] == b[x];
    }
  }

  /** A node expanded exactly when it recurses, followed by nodes that all
      are, makes one more such new node. */
  lemma NewNodesExactFrom(cat: Catalogue, config: Config, ignoreItem: int,
                          c: seq<RecipeContext>, l: seq<seq<nat>>, r: seq<int>, b: seq<int>, n: nat)
    requires CatalogueOk(cat) && n < |c| == |l| == |r| == |b|
    requires NodeExact(cat, config, ignoreItem, c, l, r, b, n) && NewNodesExact(cat, config, ignoreItem, c, l, r, b, n + 1)
    ensures NewNodesExact(cat, config, ignoreItem, c, l, r, b, n)
  {
  }

  /** Nodes expanded exactly when they recurse stay so while the arena grows
      and only `root`, an older node, gets new children. */
  lemma {:induction false} NodesExactKept(cat: Catalogue, config: Config, ignoreItem: int, n0: nat, root: nat,
                                          c: seq<RecipeContext>, r: seq<int>, l: seq<seq<nat>>, b: seq<int>,
                                          c': seq<RecipeContext>, r': seq<int>, l': seq<seq<nat>>, b': seq<int>)
    requires CatalogueOk(cat) && NewNodesExact(cat, config, ignoreItem, c, l, r, b, n0)
    requires Extends(c, r, b, c', r', b') && LeavesKept(l, l', root) && root < n0 && |c'| == |l'|
    ensures forall x :: n0 <= x < |c| ==> NodeExact(cat, config, ignoreItem, c', l', r', b', x)
  {
    forall x | n0 <= x < |c| ensures NodeExact(cat, config, ignoreItem, c', l', r', b', x) {
      assert c'[x] == c'[..|c|][x];
      assert b'[x] == b'[..|b|][x];
      assert l'[x] == l[x];
      AncestorTypesKept(c, r, c', r', x);
      assert NodeExact(cat, config, ignoreItem, c, l, r, b, x);
      if Recurses(cat, config, c, r, x) {
        PlannedKept(cat, c[x].recipe, c[x].depth + 1, b[x], l[x], 0, ChildSlots(cat, c[x].recipe, ignoreItem, 0), c, b, x + 1,
                    r, c', r', b');
      }
    }
  }

  /** Attached nodes stay attached while the arena grows and `root` only
      gains children at the end of its list. */
  lemma {:induction false} AttachedKept(n0: nat, root: nat, l: seq<seq<nat>>, r: seq<int>, l': seq<seq<nat>>, r': seq<int>)
    requires NewNodesAttached(l, r, n0) && LeavesKept(l, l', root) && root < |l|
    requires |l[root]| <= |l'[root]| && l'[root][..|l[root]|] == l[root]
    requires |r| <= |r'| == |l'| && r'[..|r|] == r
    ensures forall x :: n0 <= x < |l| ==> 0 <= r'[x] < x && x in l'[r'[x]]
  {
    forall x | n0 <= x < |l| ensures 0 <= r'[x] < x && x in l'[r'[x]] {
      assert r'[x] == r'[..|r|][x];
      var p := r[x];
      assert x in l[p];
      if p == root {
        var k :| 0 <= k < |l[p]| && l[p][k] == x;
        assert l'[root][..|l[root]|][k] == x;
      }
    }
  }

  lemma {:induction false} PlannedStep(cat: Catalogue, recipe: Recipe, depth: int, parentBatches: int,
                                       rootLeaves: seq<nat>, base: nat, slots: seq<nat>, c: seq<RecipeContext>, b: seq<int>,
                                       n0: nat, r: seq<int>, c': seq<RecipeContext>, r': seq<int>, b': seq<int>, child: nat, i: nat)
    requires CatalogueOk(cat) && Planned(cat, recipe, depth, parentBatches, rootLeaves, base, slots, c, b, n0)
    requires Extends(c, r, b, c', r', b') && n0 <= child < |c'|
    requires i < |recipe.requiredItem| && cat.select(recipe, i).Some?
    requires c'[child] == ChildContext(cat, recipe, i, depth, parentBatches)
    requires b'[child] == ChildBatches(recipe.requiredItem[i].stack, parentBatches, cat.select(recipe, i).value.createItem.stack)
    ensures Planned(cat, recipe, depth, parentBatches, rootLeaves + [child], base, slots + [i], c', b', n0)
  {
    var rl := rootLeaves + [child];
    forall k | 0 <= k < |slots + [i]|
      ensures PlannedAt(cat, recipe, depth, parentBatches, (slots + [i])[k], rl[base + k], c', b', n0)
    {
      if k < |slots| {
        var x := rootLeaves[base + k];
        assert PlannedAt(cat, recipe, depth, parentBatches, slots[k], x, c, b, n0);
        assert c'[..|c|][x] == c[x];
        assert b'[..|b|][x] == b[x];
        assert rl[base + k] == x;
      } else {
        assert rl[base + k] == child;
      }
    }
  }

  lemma {:induction false} ChildSlotsStep(cat: Catalogue, recipe: Recipe, ignoreItem: int, slots: seq<nat>, i: nat)
    requires i < |recipe.requiredItem|
    requires ChildSlots(cat, recipe, ignoreItem, 0) == slots + ChildSlots(cat, recipe, ignoreItem, i)
    ensures SlotExpands(cat, recipe, ignoreItem, i) ==>
      ChildSlots(cat, recipe, ignoreItem, 0) == (slots + [i]) + ChildSlots(cat, recipe, ignoreItem, i + 1)
    ensures !SlotExpands(cat, recipe, ignoreItem, i) ==>
      ChildSlots(cat, recipe, ignoreItem, 0) == slots + ChildSlots(cat, recipe, ignoreItem, i + 1)
  {
    if SlotExpands(cat, recipe, ignoreItem, i) {
      assert slots + ([i] + ChildSlots(cat, recipe, ignoreItem, i + 1)) == (slots + [i]) + ChildSlots(cat, recipe, ignoreItem, i + 1);
    }
  }

  // ---------------------------------------------------------------------
  // The depth-first expansion
  // ---------------------------------------------------------------------

  /** The state threaded through the expansion: the recursion stack of result
      types being expanded, the current depth and the deepest depth seen.
      `batches` records, by handle, the number of batches each node of the
      arena was planned for. */
  class ExpansionState {
    var recursionStack: set<int>
    var depth: int
    var maxDepth: int
    ghost var batches: seq<int>

    constructor ()
      ensures recursionStack == {} && depth == 0 && maxDepth == 0 && batches == []
    {
      recursionStack := {};
      depth := 0;
      maxDepth := 0;
      batches := [];
    }

    /** Pushes a result type on the recursion stack and goes one level down. */
    method Enter(createItem: int)
      requires createItem !in recursionStack
      modifies this
      ensures recursionStack == old(recursionStack) + {createItem}
      ensures depth == old(depth) + 1
      ensures maxDepth == if depth > old(maxDepth) then depth else old(maxDepth)
      ensures batches == old(batches)
    {
      recursionStack := recursionStack + {createItem};
      depth := depth + 1;
      if depth > maxDepth {
        maxDepth := depth;
      }
    }

    /** Pops a result type from the recursion stack and goes one level up. */
    method Leave(createItem: int)
      modifies this
      ensures recursionStack == old(recursionStack) - {createItem}
      ensures depth == old(depth) - 1 && maxDepth == old(maxDepth) && batches == old(batches)
    {
      recursionStack := recursionStack - {createItem};
      depth := depth - 1;
    }
  }

  lemma GuardShrinks(types: set<int>, s: set<int>, c: int)
    requires c in types && c !in s
    ensures |types - (s + {c})| < |types - s|
  {
    assert types - (s + {c}) == (types - s) - {c};
  }

  /** Expands `recipe`, whose context is node `root`, attaching a child node
      for every ingredient slot the database can craft and recursing into it.
      The recursion stack holds the result types above `root`. */
  method ModifyCraftingTree(cat: Catalogue, config: Config, st: ExpansionState, arena: RecipeTreeArena,
                            root: nat, recipe: Recipe, parentBatches: int, ignoreItem: int)
    requires CatalogueOk(cat) && Plannable(cat, recipe)
    requires arena.Valid() && root < |arena.contexts| && st.recursionStack <= cat.itemTypes
    requires arena.contexts[root].recipe == recipe && st.depth == arena.contexts[root].depth
    requires |st.batches| == |arena.contexts| && st.recursionStack == AncestorTypes(arena.contexts, arena.roots, root)
    modifies st, arena
    decreases |cat.itemTypes - st.recursionStack|, 0
    ensures arena.Valid()
    ensures st.recursionStack == old(st.recursionStack) && st.depth == old(st.depth)
    ensures st.maxDepth >= old(st.maxDepth)
    ensures Extends(old(arena.contexts), old(arena.roots), old(st.batches), arena.contexts, arena.roots, st.batches)
    ensures LeavesKept(old(arena.leaves), arena.leaves, root)
    ensures !Expands(cat, config, old(st.recursionStack), old(st.depth), recipe) ==>
      arena.contexts == old(arena.contexts) && arena.leaves == old(arena.leaves) && arena.roots == old(arena.roots) &&
      st.batches == old(st.batches)
    ensures |arena.leaves[root]| >= |old(arena.leaves[root])|
    ensures arena.leaves[root][..|old(arena.leaves[root])|] == old(arena.leaves[root])
    ensures Expands(cat, config, old(st.recursionStack), old(st.depth), recipe) ==>
      Planned(cat, recipe, old(st.depth) + 1, parentBatches, arena.leaves[root], |old(arena.leaves[root])|,
              ChildSlots(cat, recipe, ignoreItem, 0), arena.contexts, st.batches, |old(arena.contexts)|)
    ensures NewNodesWithin(cat, arena.contexts, |old(arena.contexts)|, old(st.depth), st.maxDepth, config.depthLimit)
    ensures NewNodesExact(cat, config, ignoreItem, arena.contexts, arena.leaves, arena.roots, st.batches, |old(arena.contexts)|)
    ensures NewNodesAttached(arena.leaves, arena.roots, |old(arena.contexts)|)
  {
    // the depth limit, the missing recursion tree and the recursion guard
    if !Expands(cat, config, st.recursionStack, st.depth, recipe) {
      assert arena.leaves[root][..|arena.leaves[root]|] == arena.leaves[root];
      return;
    }
    var createItem := recipe.createItem.itemType;
    st.Enter(createItem);
    GuardShrinks(cat.itemTypes, old(st.recursionStack), createItem);
    ExpandSlots(cat, config, st, arena, root, recipe, parentBatches, ignoreItem);
    st.Leave(createItem);
  }

  /** Creates the child node for one ingredient slot, attaches it as the
      last child of `root` and expands it when its recipe is recursive. */
  method AttachChild(cat: Catalogue, config: Config, st: ExpansionState, arena: RecipeTreeArena,
                     root: nat, context: RecipeContext, batches: int, ignoreItem: int) returns (child: nat)
    requires CatalogueOk(cat) && Plannable(cat, context.recipe)
    requires arena.Valid() && root < |arena.contexts| && st.recursionStack <= cat.itemTypes
    requires |st.batches| == |arena.contexts|
    requires st.recursionStack ==
      AncestorTypes(arena.contexts, arena.roots, root) + {arena.contexts[root].recipe.createItem.itemType}
    requires st.depth == context.depth && st.maxDepth >= st.depth
    requires config.depthLimit.Some? ==> context.depth <= config.depthLimit.value
    modifies st, arena
    decreases |cat.itemTypes - st.recursionStack|, 1
    ensures arena.Valid() && root < child
    ensures st.recursionStack == old(st.recursionStack) && st.depth == old(st.depth)
    ensures st.maxDepth >= old(st.maxDepth)
    ensures child == |old(arena.contexts)|
    ensures ChildAttached(cat, config, ignoreItem, root, context, batches, old(st.recursionStack),
                          old(arena.contexts), old(arena.roots), old(arena.leaves), old(st.batches),
                          arena.contexts, arena.roots, arena.leaves, st.batches, st.maxDepth)
  {
    child := NewChild(st, arena, root, context, batches);
    ghost var c1, r1, l1, b1 := arena.contexts, arena.roots, arena.leaves, st.batches;
    ChildAncestorTypes(old(arena.contexts), old(arena.roots), context, root);
    if cat.hasRecursive(context.recipe) {
      ModifyCraftingTree(cat, config, st, arena, child, context.recipe, batches, ignoreItem);
      AttachOutcome(cat, config, ignoreItem, root, context, batches, old(st.recursionStack),
                    old(arena.contexts), old(arena.roots), old(arena.leaves), old(st.batches), l1,
                    arena.contexts, arena.roots, arena.leaves, st.batches, st.maxDepth);
    } else {
      AttachOutcome(cat, config, ignoreItem, root, context, batches, old(st.recursionStack),
                    old(arena.contexts), old(arena.roots), old(arena.leaves), old(st.batches), l1,
                    c1, r1, l1, b1, st.maxDepth);
    }
  }

  /** `new OrderedRecipeTree(context)` followed by `root.Add(...)`: the new
      node is the last child of `root`, planned for `batches`. */
  method NewChild(st: ExpansionState, arena: RecipeTreeArena, root: nat, context: RecipeContext, batches: int)
    returns (child: nat)
    requires arena.Valid() && root < |arena.contexts| && |st.batches| == |arena.contexts|
    modifies st, arena
    ensures arena.Valid() && child == |old(arena.contexts)|
    ensures arena.contexts == old(arena.contexts) + [context] && arena.roots == old(arena.roots) + [root]
    ensures arena.leaves == (old(arena.leaves) + [[]])[root := old(arena.leaves[root]) + [child]]
    ensures st.batches == old(st.batches) + [batches]
    ensures st.recursionStack == old(st.recursionStack) && st.depth == old(st.depth) && st.maxDepth == old(st.maxDepth)
  {
    child := arena.NewNode(context);
    st.batches := st.batches + [batches];
    assert arena.Detached(child);
    arena.Add(root, child);
    assert arena.roots == old(arena.roots) + [root];
  }

  /** What attaching a child node under `root` and expanding it made of the
      arena (from `c0`, `r0`, `l0`, `b0` to `c`, `r`, `l`, `b`): the arena
      only grew and only `root` gained a child, the new node `|c0|`, which
      carries `context` and `batches` and has `stack` as its ancestors'
      result types. When its recipe is recursive and the expansion step goes
      ahead with `stack`, it was expanded for `batches`; otherwise it is a
      leaf. It and every node created after it lie within the depth bounds,
      hang under their parents and are expanded exactly when they recurse. */
  ghost predicate ChildAttached(cat: Catalogue, config: Config, ignoreItem: int, root: nat,
                                context: RecipeContext, batches: int, stack: set<int>,
                                c0: seq<RecipeContext>, r0: seq<int>, l0: seq<seq<nat>>, b0: seq<int>,
                                c: seq<RecipeContext>, r: seq<int>, l: seq<seq<nat>>, b: seq<int>, hi: int)
    requires CatalogueOk(cat)
  {
    && Extends(c0, r0, b0, c, r, b) && LeavesKept(l0, l, root) && |c| == |l|
    && root < |l0| && l[root] == l0[root] + [|c0|]
    && |c0| < |c| && c[|c0|] == context && b[|c0|] == batches && AncestorTypes(c, r, |c0|) == stack
    && (cat.hasRecursive(context.recipe) && Expands(cat, config, stack, context.depth, context.recipe) ==>
          ExpandedFor(cat, ignoreItem, c, l, b, |c0|))
    && (!(cat.hasRecursive(context.recipe) && Expands(cat, config, stack, context.depth, context.recipe)) ==>
          l[|c0|] == [])
    && NewNodesWithin(cat, c, |c0|, context.depth - 1, hi, config.depthLimit)
    && NewNodesExact(cat, config, ignoreItem, c, l, r, b, |c0|)
    && NewNodesAttached(l, r, |c0|)
  }

  /** The back-references of a node appended under `root`: the result types
      above `root` and `root`'s own. */
  lemma ChildAncestorTypes(c0: seq<RecipeContext>, r0: seq<int>, context: RecipeContext, root: nat)
    requires |c0| == |r0| && root < |c0|
    ensures AncestorTypes(c0 + [context], r0 + [root], |c0|) ==
      AncestorTypes(c0, r0, root) + {c0[root].recipe.createItem.itemType}
  {
    AncestorTypesKept(c0, r0, c0 + [context], r0 + [root], root);
    assert (c0 + [context])[root] == c0[root];
  }

  /** What attaching the child node `|c0|` under `root`, and expanding it
      when its recipe is recursive, makes of the arena (from `c0`, `r0`,
      `l0`, `b0` to `c`, `r`, `l`, `b`; `l1` is the children right after the
      attachment): the child carries its context and batch count, its
      ancestors' result types are `stack`, and it and every node after it is
      expanded exactly when it recurses and hangs under its parent. */
  lemma {:induction false} AttachOutcome(cat: Catalogue, config: Config, ignoreItem: int, root: nat,
                                         context: RecipeContext, batches: int, stack: set<int>,
                                         c0: seq<RecipeContext>, r0: seq<int>, l0: seq<seq<nat>>, b0: seq<int>,
                                         l1: seq<seq<nat>>,
                                         c: seq<RecipeContext>, r: seq<int>, l: seq<seq<nat>>, b: seq<int>, hi: int)
    requires CatalogueOk(cat) && |c0| == |l0| == |r0| == |b0| && root < |c0|
    requires l1 == (l0 + [[]])[root := l0[root] + [|c0|]]
    requires stack == AncestorTypes(c0 + [context], r0 + [root], |c0|)
    requires Extends(c0 + [context], r0 + [root], b0 + [batches], c, r, b) && LeavesKept(l1, l, |c0|) && |c| == |l|
    requires !(cat.hasRecursive(context.recipe) && Expands(cat, config, stack, context.depth, context.recipe)) ==>
      c == c0 + [context] && l == l1 && r == r0 + [root] && b == b0 + [batches]
    requires cat.hasRecursive(context.recipe) && Expands(cat, config, stack, context.depth, context.recipe) ==>
      Planned(cat, context.recipe, context.depth + 1, batches, l[|c0|], 0,
              ChildSlots(cat, context.recipe, ignoreItem, 0), c, b, |c0| + 1)
    requires NewNodesExact(cat, config, ignoreItem, c, l, r, b, |c0| + 1) && NewNodesAttached(l, r, |c0| + 1)
    requires Plannable(cat, context.recipe) && context.depth <= hi && (config.depthLimit.Some? ==> context.depth <= config.depthLimit.value)
    requires NewNodesWithin(cat, c, |c0| + 1, context.depth, hi, config.depthLimit)
    ensures ChildAttached(cat, config, ignoreItem, root, context, batches, stack, c0, r0, l0, b0, c, r, l, b, hi)
  {
    var child, c1, r1, b1 := |c0|, c0 + [context], r0 + [root], b0 + [batches];
    assert Extends(c0, r0, b0, c1, r1, b1) by {
      assert c1[..|c0|] == c0 && r1[..|r0|] == r0 && b1[..|b0|] == b0;
    }
    ExtendsTrans(c0, r0, b0, c1, r1, b1, c, r, b);
    AncestorTypesKept(c1, r1, c, r, child);
    assert c[child] == c[..|c1|][child];
    assert b[child] == b[..|b1|][child];
    assert r[child] == r[..|r1|][child];
    assert l[root] == l1[root];
    forall x | 0 <= x < |l0| && x != root ensures l[x] == l0[x] {
      assert l1[x] == l0[x];
    }
    if !cat.hasRecursive(context.recipe) || !Expands(cat, config, stack, context.depth, context.recipe) {
      assert l[child] == [];
    }
    assert NodeExact(cat, config, ignoreItem, c, l, r, b, child);
    NewNodesExactFrom(cat, config, ignoreItem, c, l, r, b, child);
    assert child in l[r[child]];
    forall x | |c0| <= x < |c|
      ensures Plannable(cat, c[x].recipe) && context.depth - 1 < c[x].depth <= hi &&
              (config.depthLimit.Some? ==> c[x].depth <= config.depthLimit.value)
    {
      if x == child {
        assert c[x] == context;
      }
    }
  }

  /** The state of the slot loop of an expansion after slots `..i`: the arena
      grew from (`c0`, `r0`, `l0`, batches `b0`), only `root` got children,
      and those appended after position `base` are the planned children of
      `slots`. */
  ghost predicate SlotLoop(cat: Catalogue, config: Config, recipe: Recipe, parentBatches: int, ignoreItem: int,
                           depth: int, maxDepth: int, c0: seq<RecipeContext>, r0: seq<int>, l0: seq<seq<nat>>, b0: seq<int>,
                           root: nat, base: nat, slots: seq<nat>, i: nat,
                           c: seq<RecipeContext>, r: seq<int>, l: seq<seq<nat>>, b: seq<int>)
    requires CatalogueOk(cat) && i <= |recipe.requiredItem|
  {
    && Extends(c0, r0, b0, c, r, b)
    && LeavesKept(l0, l, root)
    && root < |l0| && base == |l0[root]| <= |l[root]| && l[root][..base] == l0[root]
    && ChildSlots(cat, recipe, ignoreItem, 0) == slots + ChildSlots(cat, recipe, ignoreItem, i)
    && Planned(cat, recipe, depth, parentBatches, l[root], base, slots, c, b, |c0|)
    && NewNodesWithin(cat, c, |c0|, depth - 1, maxDepth, config.depthLimit)
    && root < |c0| && NewNodesExact(cat, config, ignoreItem, c, l, r, b, |c0|)
    && NewNodesAttached(l, r, |c0|)
  }

  /** What handling slot `i` did to the arena (from `c`, `r`, `l`, `b` to
      `c'`, `r'`, `l'`, `b'`): nothing when the slot does not expand,
      otherwise it appended one new child of `root` with the planned context
      and batch count, and every node it created lies within the depth
      bounds, hangs under its parent and is expanded exactly when it
      recurses. */
  ghost predicate SlotOutcome(cat: Catalogue, config: Config, recipe: Recipe, parentBatches: int, ignoreItem: int,
                              depth: int, maxDepth: int, root: nat, i: nat,
                              c: seq<RecipeContext>, r: seq<int>, l: seq<seq<nat>>, b: seq<int>,
                              c': seq<RecipeContext>, r': seq<int>, l': seq<seq<nat>>, b': seq<int>, attached: bool)
    requires CatalogueOk(cat) && i < |recipe.requiredItem|
  {
    && attached == SlotExpands(cat, recipe, ignoreItem, i)
    && (!attached ==> c' == c && l' == l && r' == r && b' == b)
    && Extends(c, r, b, c', r', b') && LeavesKept(l, l', root)
    && (attached ==> root < |l| && l'[root] == l[root] + [|c|] && |c| < |c'| &&
                     c'[|c|] == ChildContext(cat, recipe, i, depth, parentBatches) &&
                     b'[|c|] == ChildBatches(recipe.requiredItem[i].stack, parentBatches,
                                             cat.select(recipe, i).value.createItem.stack))
    && NewNodesWithin(cat, c', |c|, depth - 1, maxDepth, config.depthLimit)
    && NewNodesExact(cat, config, ignoreItem, c', l', r', b', |c|)
    && NewNodesAttached(l', r', |c|)
  }

  lemma {:induction false} SlotLoopStep(cat: Catalogue, config: Config, recipe: Recipe, parentBatches: int, ignoreItem: int,
                                        depth: int, maxDepth: int, maxDepth': int,
                                        c0: seq<RecipeContext>, r0: seq<int>, l0: seq<seq<nat>>, b0: seq<int>,
                                        root: nat, base: nat, slots: seq<nat>, i: nat,
                                        c: seq<RecipeContext>, r: seq<int>, l: seq<seq<nat>>, b: seq<int>,
                                        c': seq<RecipeContext>, r': seq<int>, l': seq<seq<nat>>, b': seq<int>, attached: bool)
    requires CatalogueOk(cat) && i < |recipe.requiredItem| && maxDepth <= maxDepth'
    requires SlotLoop(cat, config, recipe, parentBatches, ignoreItem, depth, maxDepth, c0, r0, l0, b0, root, base, slots, i, c, r, l, b)
    requires SlotOutcome(cat, config, recipe, parentBatches, ignoreItem, depth, maxDepth', root, i, c, r, l, b, c', r', l', b', attached)
    ensures SlotLoop(cat, config, recipe, parentBatches, ignoreItem, depth, maxDepth', c0, r0, l0, b0, root, base,
                     if attached then slots + [i] else slots, i + 1, c', r', l', b')
  {
    ChildSlotsStep(cat, recipe, ignoreItem, slots, i);
    ExtendsTrans(c0, r0, b0, c, r, b, c', r', b');
    NodesExactKept(cat, config, ignoreItem, |c0|, root, c, r, l, b, c', r', l', b');
    if attached {
      PlannedStep(cat, recipe, depth, parentBatches, l[root], base, slots, c, b, |c0|, r, c', r', b', |c|, i);
      assert l'[root][..base] == l[root][..base];
      assert l'[root][..|l[root]|] == l[root];
      AttachedKept(|c0|, root, l, r, l', r');
    } else {
      assert l'[root][..|l[root]|] == l[root];
    }
    forall x | |c0| <= x < |c'|
      ensures Plannable(cat, c'[x].recipe) && depth - 1 < c'[x].depth <= maxDepth' &&
              (config.depthLimit.Some? ==> c'[x].depth <= config.depthLimit.value)
    {
      if x < |c| {
        assert c'[x] == c'[..|c|][x];
      }
    }
  }

  /** The loop over the ingredient slots of an expanded recipe: one child
      node per slot the database can craft, in ingredient order. */
  method ExpandSlots(cat: Catalogue, config: Config, st: ExpansionState, arena: RecipeTreeArena,
                     root: nat, recipe: Recipe, parentBatches: int, ignoreItem: int)
    requires CatalogueOk(cat) && Plannable(cat, recipe)
    requires arena.Valid() && root < |arena.contexts| && st.recursionStack <= cat.itemTypes
    requires arena.contexts[root].recipe == recipe && |st.batches| == |arena.contexts|
    requires st.recursionStack == AncestorTypes(arena.contexts, arena.roots, root) + {recipe.createItem.itemType}
    requires st.maxDepth >= st.depth && (config.depthLimit.Some? ==> st.depth <= config.depthLimit.value)
    modifies st, arena
    decreases |cat.itemTypes - st.recursionStack|, 3
    ensures arena.Valid()
    ensures st.recursionStack == old(st.recursionStack) && st.depth == old(st.depth)
    ensures st.maxDepth >= old(st.maxDepth)
    ensures SlotLoop(cat, config, recipe, parentBatches, ignoreItem, st.depth, st.maxDepth,
                     old(arena.contexts), old(arena.roots), old(arena.leaves), old(st.batches), root, |old(arena.leaves[root])|,
                     ChildSlots(cat, recipe, ignoreItem, 0), |recipe.requiredItem|, arena.contexts, arena.roots, arena.leaves, st.batches)
  {
    ghost var c0, r0, l0, b0 := arena.contexts, arena.roots, arena.leaves, st.batches;
    ghost var slots: seq<nat> := [];
    var i: nat := 0;
    assert l0[root][..|l0[root]|] == l0[root];
    while i < |recipe.requiredItem|
      invariant 0 <= i <= |recipe.requiredItem|
      invariant arena.Valid() && root < |arena.contexts|
      invariant st.recursionStack == old(st.recursionStack)
      invariant st.depth == old(st.depth) && st.maxDepth >= old(st.maxDepth)
      invariant SlotLoop(cat, config, recipe, parentBatches, ignoreItem, st.depth, st.maxDepth,
                         c0, r0, l0, b0, root, |l0[root]|, slots, i, arena.contexts, arena.roots, arena.leaves, st.batches)
    {
      var attached;
      attached, slots := PlanSlot(cat, config, st, arena, root, recipe, parentBatches, ignoreItem, i, c0, r0, l0, b0, slots);
      i := i + 1;
    }
    assert ChildSlots(cat, recipe, ignoreItem, i) == [];
    assert slots == ChildSlots(cat, recipe, ignoreItem, 0);
  }

  /** One ingredient slot: skipped when it has no candidate recipe or is
      blocked; otherwise the child node is planned and attached. The slot
      loop's state advances past slot `i`. */
  method PlanSlot(cat: Catalogue, config: Config, st: ExpansionState, arena: RecipeTreeArena,
                  root: nat, recipe: Recipe, parentBatches: int, ignoreItem: int, i: nat,
                  ghost c0: seq<RecipeContext>, ghost r0: seq<int>, ghost l0: seq<seq<nat>>, ghost b0: seq<int>,
                  ghost slots: seq<nat>)
    returns (attached: bool, ghost slots': seq<nat>)
    requires CatalogueOk(cat) && Plannable(cat, recipe) && i < |recipe.requiredItem|
    requires arena.Valid() && root < |arena.contexts| && st.recursionStack <= cat.itemTypes
    requires st.maxDepth >= st.depth && (config.depthLimit.Some? ==> st.depth <= config.depthLimit.value)
    requires root < |l0| && SlotLoop(cat, config, recipe, parentBatches, ignoreItem, st.depth, st.maxDepth,
                                     c0, r0, l0, b0, root, |l0[root]|, slots, i,
                                     arena.contexts, arena.roots, arena.leaves, st.batches)
    requires c0[root].recipe == recipe
    requires st.recursionStack == AncestorTypes(c0, r0, root) + {recipe.createItem.itemType}
    modifies st, arena
    decreases |cat.itemTypes - st.recursionStack|, 2
    ensures arena.Valid() && root < |arena.contexts|
    ensures st.recursionStack == old(st.recursionStack) && st.depth == old(st.depth)
    ensures st.maxDepth >= old(st.maxDepth)
    ensures attached == SlotExpands(cat, recipe, ignoreItem, i)
    ensures slots' == if attached then slots + [i] else slots
    ensures SlotLoop(cat, config, recipe, parentBatches, ignoreItem, st.depth, st.maxDepth, c0, r0, l0, b0, root,
                     |l0[root]|, slots', i + 1, arena.contexts, arena.roots, arena.leaves, st.batches)
  {
    ghost var c, r, l, b, m := arena.contexts, arena.roots, arena.leaves, st.batches, st.maxDepth;
    var requiredItem := recipe.requiredItem[i];
    var selected := cat.select(recipe, i);
    if selected.None? || Blocked(cat.groups, recipe, ignoreItem, requiredItem.itemType) {
      attached := false;
    } else {
      var requiredPerCraft := requiredItem.stack;
      var chosen := selected.value;
      var batchSize := chosen.createItem.stack;
      var batches := ChildBatches(requiredPerCraft, parentBatches, batchSize);
      var amountToCraft := ChildAmount(requiredPerCraft, parentBatches, batchSize);
      AncestorTypesKept(c0, r0, c, r, root);
      assert c[root] == c[..|c0|][root];
      var child := AttachChild(cat, config, st, arena, root, RecipeContext(chosen, st.depth, amountToCraft), batches, ignoreItem);
      attached := true;
    }
    assert SlotOutcome(cat, config, recipe, parentBatches, ignoreItem, st.depth, st.maxDepth, root, i,
                       c, r, l, b, arena.contexts, arena.roots, arena.leaves, st.batches, attached);
    SlotLoopStep(cat, config, recipe, parentBatches, ignoreItem, st.depth, m, st.maxDepth, c0, r0, l0, b0, root,
                 |l0[root]|, slots, i, c, r, l, b, arena.contexts, arena.roots, arena.leaves, st.batches, attached);
    slots' := if attached then slots + [i] else slots;
  }

  // ---------------------------------------------------------------------
  // Building the crafting tree
  // ---------------------------------------------------------------------

  /** The crafting tree built for `amountToCraft` of `original` (contexts
      `c`, children `l`, back-references `r`): its root crafts whole batches
      of `original`; without recursion, or when the root's expansion does
      nothing, the root is alone. Every node carries a plannable recipe, and
      every node below the root lies one level down or deeper, within the
      depth limit. There is a batch count per node (`TreePlanned`) for which
      the root is expanded for its whole batches and every other node hangs
      under its parent and is expanded exactly when it recurses. */
  ghost predicate CraftingTree(cat: Catalogue, config: Config, original: Recipe, amountToCraft: int, ignoreItem: int,
                               c: seq<RecipeContext>, l: seq<seq<nat>>, r: seq<int>)
    requires CatalogueOk(cat) && Plannable(cat, original)
  {
    && |c| >= 1 && |c| == |l| && Forest(l, r)
    && c[0] == RootContext(original, amountToCraft) && r[0] == -1
    && (!config.recursionEnabled || !Expands(cat, config, {}, 0, original) ==> |c| == 1 && l == [[]])
    && (forall x :: 0 <= x < |c| ==> Plannable(cat, c[x].recipe))
    && (forall x :: 1 <= x < |c| ==> 1 <= c[x].depth && (config.depthLimit.Some? ==> c[x].depth <= config.depthLimit.value))
    && exists b :: TreePlanned(cat, config, original, amountToCraft, ignoreItem, c, l, r, b)
  }

  /** The expansion of a crafting tree with batch counts `b`: the root is
      planned for the whole batches covering the amount and, when recursion
      is on and its expansion goes ahead, expanded for them; every other node
      is a child of its Root and is expanded for its own batch count exactly
      when it recurses, a leaf otherwise. */
  ghost predicate TreePlanned(cat: Catalogue, config: Config, original: Recipe, amountToCraft: int, ignoreItem: int,
                              c: seq<RecipeContext>, l: seq<seq<nat>>, r: seq<int>, b: seq<int>)
    requires CatalogueOk(cat) && Plannable(cat, original)
  {
    && |c| >= 1 && |c| == |l| == |r| == |b|
    && b[0] == CeilDiv(amountToCraft, original.createItem.stack)
    && (config.recursionEnabled && Expands(cat, config, {}, 0, original) ==> ExpandedFor(cat, ignoreItem, c, l, b, 0))
    && NewNodesExact(cat, config, ignoreItem, c, l, r, b, 1)
    && NewNodesAttached(l, r, 1)
  }

  /** The crafting tree for `amountToCraft` of `original`: a root that crafts
      whole batches, expanded depth-first when recursion is enabled. */
  method GetCraftingTree(cat: Catalogue, config: Config, original: Recipe, amountToCraft: int,
                         blockedSubrecipeIngredient: int)
    returns (orderedTree: RecipeTreeArena)
    requires CatalogueOk(cat) && Plannable(cat, original)
    ensures fresh(orderedTree) && orderedTree.Valid()
    ensures CraftingTree(cat, config, original, amountToCraft, blockedSubrecipeIngredient,
                         orderedTree.contexts, orderedTree.leaves, orderedTree.roots)
  {
    var batchSize := original.createItem.stack;
    var batches := CeilDiv(amountToCraft, batchSize);
    orderedTree := new RecipeTreeArena(RootContext(original, amountToCraft));
    var st := new ExpansionState();
    st.batches := [batches];
    if config.recursionEnabled {
      assert AncestorTypes(orderedTree.contexts, orderedTree.roots, 0) == {};
      ModifyCraftingTree(cat, config, st, orderedTree, 0, original, batches, blockedSubrecipeIngredient);
      assert orderedTree.contexts[0] == orderedTree.contexts[..1][0];
      assert orderedTree.roots[0] == orderedTree.roots[..1][0];
      assert st.batches[0] == st.batches[..1][0];
    }
    assert TreePlanned(cat, config, original, amountToCraft, blockedSubrecipeIngredient,
                       orderedTree.contexts, orderedTree.leaves, orderedTree.roots, st.batches);
  }

  /** The recursion guard along every path of a crafting tree: a node with
      children never has its result type among its ancestors', so a path
      expands each result type at most once, and the node where a cycle of
      recipes closes is a leaf. */
  lemma ExpansionGuard(cat: Catalogue, config: Config, original: Recipe, amountToCraft: int, ignoreItem: int,
                       c: seq<RecipeContext>, l: seq<seq<nat>>, r: seq<int>, x: nat)
    requires CatalogueOk(cat) && Plannable(cat, original)
    requires CraftingTree(cat, config, original, amountToCraft, ignoreItem, c, l, r) && x < |c|
    ensures |r| == |c|
    ensures c[x].recipe.createItem.itemType in AncestorTypes(c, r, x) ==> l[x] == []
  {
    var b :| TreePlanned(cat, config, original, amountToCraft, ignoreItem, c, l, r, b);
    if x > 0 {
      assert NodeExact(cat, config, ignoreItem, c, l, r, b, x);
    }
  }

  // ---------------------------------------------------------------------
  // Counting an inventory
  // ---------------------------------------------------------------------

  /** One entry of an available-inventory dictionary. */
  datatype Stock = Stock(itemType: int, quantity: int)

  /** An available inventory, in its enumeration order. */
  type Inventory = seq<Stock>

  /** Whether some entry of the inventory stands in for `result` through a
      recipe group of `recipe`. */
  predicate UsesGroup(groups: GroupRegistry, recipe: Recipe, result: int, inv: Inventory)
  {
    exists k :: 0 <= k < |inv| && RecipeGroupMatch(groups, recipe, inv[k].itemType, result)
  }

  /** The clamped running total, from `acc`, of the entries that stand in for
      `result` through a recipe group. */
  function GroupCount(groups: GroupRegistry, recipe: Recipe, result: int, inv: Inventory, acc: int): (r: int)
    requires 0 <= acc <= IntMax
    ensures 0 <= r <= IntMax
    decreases |inv|
  {
    if inv == [] then acc
    else GroupCount(groups, recipe, result, inv[1..],
                    if RecipeGroupMatch(groups, recipe, inv[0].itemType, result) then ClampedAdd(acc, inv[0].quantity) else acc)
  }

  /** The quantity recorded for item type `t`, if any. */
  function Lookup(inv: Inventory, t: int): (q: Option<int>)
    ensures q.Some? <==> exists k :: 0 <= k < |inv| && inv[k].itemType == t
    ensures q.Some? ==> exists k :: 0 <= k < |inv| && inv[k] == Stock(t, q.value)
  {
    if inv == [] then None
    else if inv[0].itemType == t then Some(inv[0].quantity)
    else
      var q := Lookup(inv[1..], t);
      assert forall k :: 0 <= k < |inv| - 1 ==> inv[1..][k] == inv[k + 1];
      q
  }

  /** How many of `result` the inventory holds for `recipe`: the entries that
      stand in for it through a recipe group, or, when there are none, the
      entry of its own type. */
  function ItemCount(groups: GroupRegistry, recipe: Recipe, result: int, inv: Inventory): int
  {
    var count := GroupCount(groups, recipe, result, inv, 0);
    if !UsesGroup(groups, recipe, result, inv) && Lookup(inv, result).Some?
    then ClampedAdd(count, Lookup(inv, result).value)
    else count
  }

  /** The count function the trim uses for an inventory. */
  function InventoryCount(groups: GroupRegistry, inv: Inventory): (Recipe, int) -> int
  {
    (recipe: Recipe, result: int) => ItemCount(groups, recipe, result, inv)
  }

  /** Counts `result` for `recipe` in one pass over the inventory, then looks
      up the exact type only when no group member was found. */
  method GetItemCount(groups: GroupRegistry, recipe: Recipe, result: int, inv: Inventory) returns (count: int)
    ensures count == ItemCount(groups, recipe, result, inv)
  {
    count := 0;
    var useRecipeGroup := false;
    var k := 0;
    while k < |inv|
      invariant 0 <= k <= |inv| && 0 <= count <= IntMax
      invariant GroupCount(groups, recipe, result, inv[k..], count) == GroupCount(groups, recipe, result, inv, 0)
      invariant useRecipeGroup <==> exists j :: 0 <= j < k && RecipeGroupMatch(groups, recipe, inv[j].itemType, result)
    {
      assert inv[k..][1..] == inv[k + 1..];
      if RecipeGroupMatch(groups, recipe, inv[k].itemType, result) {
        count := ClampedAdd(count, inv[k].quantity);
        useRecipeGroup := true;
      }
      k := k + 1;
    }
    if !useRecipeGroup {
      var amount := Lookup(inv, result);
      if amount.Some? {
        count := ClampedAdd(count, amount.value);
      }
    }
  }

  /** The plain sum of the quantities that stand in for `result` through a
      recipe group. */
  function GroupSum(groups: GroupRegistry, recipe: Recipe, result: int, inv: Inventory): int
    decreases |inv|
  {
    if inv == [] then 0
    else (if RecipeGroupMatch(groups, recipe, inv[0].itemType, result) then inv[0].quantity else 0)
         + GroupSum(groups, recipe, result, inv[1..])
  }

  predicate NonNegative(inv: Inventory)
  {
    forall k :: 0 <= k < |inv| ==> inv[k].quantity >= 0
  }

  /** With non-negative quantities the clamped total is the sum, saturated at
      the largest 32-bit integer. */
  lemma {:induction false} GroupCountSaturates(groups: GroupRegistry, recipe: Recipe, result: int, inv: Inventory, acc: int)
    requires 0 <= acc <= IntMax && NonNegative(inv)
    ensures GroupSum(groups, recipe, result, inv) >= 0
    ensures GroupCount(groups, recipe, result, inv, acc) ==
      if acc + GroupSum(groups, recipe, result, inv) <= IntMax then acc + GroupSum(groups, recipe, result, inv) else IntMax
    decreases |inv|
  {
    if inv != [] {
      assert NonNegative(inv[1..]) by {
        forall k | 0 <= k < |inv[1..]| ensures inv[1..][k].quantity >= 0 {
          assert inv[1..][k] == inv[k + 1];
        }
      }
      var acc' := if RecipeGroupMatch(groups, recipe, inv[0].itemType, result) then ClampedAdd(acc, inv[0].quantity) else acc;
      GroupCountSaturates(groups, recipe, result, inv[1..], acc');
    }
  }

  /** Without a group match the count is the entry of the exact type, and
      nothing when there is none. */
  lemma {:induction false} GroupCountNoMatch(groups: GroupRegistry, recipe: Recipe, result: int, inv: Inventory, acc: int)
    requires 0 <= acc <= IntMax && !UsesGroup(groups, recipe, result, inv)
    ensures GroupCount(groups, recipe, result, inv, acc) == acc
    decreases |inv|
  {
    if inv != [] {
      forall k | 0 <= k < |inv[1..]| ensures !RecipeGroupMatch(groups, recipe, inv[1..][k].itemType, result) {
        assert inv[1..][k] == inv[k + 1];
      }
      assert !RecipeGroupMatch(groups, recipe, inv[0].itemType, result);
      GroupCountNoMatch(groups, recipe, result, inv[1..], acc);
    }
  }

  /** The two ways an inventory counts: through the group members when some
      entry matches, otherwise through the exact type; never negative and
      never above the largest 32-bit integer. */
  lemma ItemCountCases(groups: GroupRegistry, recipe: Recipe, result: int, inv: Inventory)
    requires NonNegative(inv)
    ensures 0 <= ItemCount(groups, recipe, result, inv) <= IntMax
    ensures UsesGroup(groups, recipe, result, inv) ==>
      ItemCount(groups, recipe, result, inv) == Min(GroupSum(groups, recipe, result, inv), IntMax)
    ensures !UsesGroup(groups, recipe, result, inv) && Lookup(inv, result).None? ==>
      ItemCount(groups, recipe, result, inv) == 0
    ensures !UsesGroup(groups, recipe, result, inv) && Lookup(inv, result).Some? ==>
      ItemCount(groups, recipe, result, inv) == Min(Lookup(inv, result).value, IntMax)
  {
    GroupCountSaturates(groups, recipe, result, inv, 0);
    if !UsesGroup(groups, recipe, result, inv) {
      GroupCountNoMatch(groups, recipe, result, inv, 0);
    }
  }

  function Min(a: int, b: int): int
  {
    if a <= b then a else b
  }

  // ---------------------------------------------------------------------
  // Materials of a crafting tree
  // ---------------------------------------------------------------------

  /** The tree (`c`, `l`) is the built tree (`c0`, `l0`, back-references
      `r`) trimmed against the inventory when one is given, and the built
      tree itself otherwise: a node the trim reaches gets its trimmed
      context, and a reached node that does not survive loses its children. */
  ghost predicate TrimmedTree(groups: GroupRegistry, inv: Option<Inventory>, c0: seq<RecipeContext>, l0: seq<seq<nat>>,
                              r: seq<int>, c: seq<RecipeContext>, l: seq<seq<nat>>)
  {
    && Forest(l0, r) && |c0| == |l0| && |c| == |c0| && |l| == |l0|
    && (inv.None? ==> c == c0 && l == l0)
    && (inv.Some? ==> forall x {:trigger c[x]} :: 0 <= x < |c0| ==>
          c[x] == if Reached(l0, r, c0, InventoryCount(groups, inv.value), 0, x)
                  then TrimmedContext(c0[x], InventoryCount(groups, inv.value)) else c0[x])
    && (inv.Some? ==> forall x {:trigger l[x]} :: 0 <= x < |c0| ==>
          l[x] == if Reached(l0, r, c0, InventoryCount(groups, inv.value), 0, x) &&
                     !Survives(c0, InventoryCount(groups, inv.value), x)
                  then [] else l0[x])
  }

  /** The materials and excess results of crafting `amountToCraft` of
      `original`: the tree is built, trimmed against the inventory when one is
      given, and aggregated from the root. `built` and `builtLeaves` are the
      tree as built, before the trim. */
  method GetRequiredMaterials(cat: Catalogue, config: Config, original: Recipe, amountToCraft: int,
                              availableInventory: Option<Inventory>, drops: DropHook)
    returns (materials: seq<Material>, excessResults: seq<ItemInfo>,
             ghost craftingTree: RecipeTreeArena, ghost built: seq<RecipeContext>, ghost builtLeaves: seq<seq<nat>>)
    requires CatalogueOk(cat) && Plannable(cat, original)
    ensures craftingTree.Valid() && |craftingTree.contexts| == |built| >= 1
    ensures craftingTree.contexts[0] == built[0] == RootContext(original, amountToCraft)
    ensures CraftingTree(cat, config, original, amountToCraft, 0, built, builtLeaves, craftingTree.roots)
    ensures TrimmedTree(cat.groups, availableInventory, built, builtLeaves, craftingTree.roots,
                        craftingTree.contexts, craftingTree.leaves)
    ensures InRange(Bfs(craftingTree.leaves, [0]), 0, |craftingTree.contexts|)
    ensures AllWellFormed(cat.groups, PopOrder(craftingTree.contexts, Bfs(craftingTree.leaves, [0])))
    ensures var l := Aggregate(EmptyLedger, cat.groups, drops, PopOrder(craftingTree.contexts, Bfs(craftingTree.leaves, [0])));
      materials == l.materials && excessResults == l.excess
    ensures forall i :: 0 <= i < |materials| ==> materials[i].stack >= 0
    ensures forall i, j :: 0 <= i < j < |materials| ==> materials[i].key != materials[j].key
  {
    var tree := GetCraftingTree(cat, config, original, amountToCraft, 0);
    craftingTree := tree;
    built, builtLeaves := tree.contexts, tree.leaves;
    materials, excessResults := TrimAndCollect(cat, tree, availableInventory, drops);
  }

  /** The second half of `GetRequiredMaterials`: trims a built tree against
      the inventory, when one is given, and aggregates it from the root. */
  method TrimAndCollect(cat: Catalogue, tree: RecipeTreeArena, availableInventory: Option<Inventory>, drops: DropHook)
    returns (materials: seq<Material>, excessResults: seq<ItemInfo>)
    requires tree.Valid() && |tree.contexts| >= 1
    requires forall x :: 0 <= x < |tree.contexts| ==> Plannable(cat, tree.contexts[x].recipe)
    modifies tree
    ensures tree.Valid() && tree.roots == old(tree.roots) && |tree.contexts| == |old(tree.contexts)|
    ensures tree.contexts[0] == old(tree.contexts[0])
    ensures availableInventory.None? ==> tree.contexts == old(tree.contexts) && tree.leaves == old(tree.leaves)
    ensures availableInventory.Some? ==> forall x {:trigger tree.contexts[x]} :: 0 <= x < |tree.contexts| ==>
      tree.contexts[x] ==
        if Reached(old(tree.leaves), tree.roots, old(tree.contexts), InventoryCount(cat.groups, availableInventory.value), 0, x)
        then TrimmedContext(old(tree.contexts[x]), InventoryCount(cat.groups, availableInventory.value)) else old(tree.contexts[x])
    ensures availableInventory.Some? ==> forall x {:trigger tree.leaves[x]} :: 0 <= x < |tree.contexts| ==>
      tree.leaves[x] ==
        if Reached(old(tree.leaves), tree.roots, old(tree.contexts), InventoryCount(cat.groups, availableInventory.value), 0, x) &&
           !Survives(old(tree.contexts), InventoryCount(cat.groups, availableInventory.value), x)
        then [] else old(tree.leaves[x])
    ensures InRange(Bfs(tree.leaves, [0]), 0, |tree.contexts|)
    ensures AllWellFormed(cat.groups, PopOrder(tree.contexts, Bfs(tree.leaves, [0])))
    ensures var l := Aggregate(EmptyLedger, cat.groups, drops, PopOrder(tree.contexts, Bfs(tree.leaves, [0])));
      materials == l.materials && excessResults == l.excess
    ensures forall i :: 0 <= i < |materials| ==> materials[i].stack >= 0
    ensures forall i, j :: 0 <= i < j < |materials| ==> materials[i].key != materials[j].key
  {
    ghost var C := tree.contexts;
    if availableInventory.Some? {
      var inv := availableInventory.value;
      tree.TrimBranches(0, InventoryCount(cat.groups, inv));
    }
    assert forall x :: 0 <= x < |tree.contexts| ==> WellFormedRecipe(cat.groups, tree.contexts[x].recipe) by {
      forall x | 0 <= x < |tree.contexts| ensures WellFormedRecipe(cat.groups, tree.contexts[x].recipe) {
        assert Plannable(cat, C[x].recipe);
      }
    }
    materials, excessResults := tree.GetRequiredMaterials(0, cat.groups, drops);
  }

  // ---------------------------------------------------------------------
  // How many crafts an inventory affords
  // ---------------------------------------------------------------------

  /** The item types that can meet a material: its own type, or the members
      of its recipe group. */
  function ValidItems(groups: GroupRegistry, key: MaterialKey): seq<int>
  {
    match key
    case ItemKey(t) => [t]
    case GroupKey(g) => if g in groups then groups[g] else []
  }

  /** The clamped running total, from `acc`, of the entries whose type is
      one of `valid`. */
  function Supply(inv: Inventory, valid: seq<int>, acc: int): (r: int)
    requires 0 <= acc <= IntMax
    ensures 0 <= r <= IntMax
    decreases |inv|
  {
    if inv == [] then acc
    else Supply(inv[1..], valid, if inv[0].itemType in valid then ClampedAdd(acc, inv[0].quantity) else acc)
  }

  /** Why a craftable count could not be computed. */
  datatype CraftError = ArgumentNull | DivideByZero

  /** A craftable count, or the exception computing it raised. */
  datatype Crafts = Crafts(count: int) | Failed(error: CraftError)

  /** How many times the inventory covers one material. */
  function Quota(groups: GroupRegistry, inv: Inventory, m: Material): int
    requires m.stack != 0
  {
    Supply(inv, ValidItems(groups, m.key), 0) / m.stack
  }

  function CraftsFor(groups: GroupRegistry, inv: Inventory, m: Material): Crafts
  {
    if m.stack == 0 then Failed(DivideByZero) else Crafts(Quota(groups, inv, m))
  }

  /** The smallest quota of `materials`, from `best`, in enumeration order;
      the first material with a zero stack raises the division error. */
  function MaxCrafts(groups: GroupRegistry, inv: Inventory, materials: seq<Material>, best: int): Crafts
    decreases |materials|
  {
    if materials == [] then Crafts(best)
    else match CraftsFor(groups, inv, materials[0])
      case Failed(e) => Failed(e)
      case Crafts(n) => MaxCrafts(groups, inv, materials[1..], Min(n, best))
  }

  /** Totals the inventory entries of a valid type (at most once per entry)
      and divides by the material's stack. */
  method GetMaxCraftsAmount(groups: GroupRegistry, inv: Inventory, requiredMaterial: Material) returns (r: Crafts)
    ensures r == CraftsFor(groups, inv, requiredMaterial)
  {
    var valid := ValidItems(groups, requiredMaterial.key);
    var total := 0;
    var k := 0;
    while k < |inv|
      invariant 0 <= k <= |inv| && 0 <= total <= IntMax
      invariant Supply(inv[k..], valid, total) == Supply(inv, valid, 0)
    {
      assert inv[k..][1..] == inv[k + 1..];
      ghost var before := total;
      var j := 0;
      while j < |valid|
        invariant 0 <= j <= |valid| && total == before
        invariant inv[k].itemType !in valid[..j]
      {
        if inv[k].itemType == valid[j] {
          total := ClampedAdd(total, inv[k].quantity);
          break;
        }
        j := j + 1;
      }
      assert total == if inv[k].itemType in valid then ClampedAdd(before, inv[k].quantity) else before by {
        if j == |valid| {
          assert valid[..j] == valid;
        }
      }
      k := k + 1;
    }
    if requiredMaterial.stack == 0 {
      r := Failed(DivideByZero);
    } else {
      r := Crafts(total / requiredMaterial.stack);
    }
  }

  /** The smallest quota: no zero stack, and a count no larger than `best`
      or any quota and equal to one of them; otherwise the division error. */
  lemma {:induction false} MaxCraftsFacts(groups: GroupRegistry, inv: Inventory, materials: seq<Material>, best: int)
    ensures MaxCrafts(groups, inv, materials, best).Failed? <==> exists i :: 0 <= i < |materials| && materials[i].stack == 0
    ensures MaxCrafts(groups, inv, materials, best).Failed? ==> MaxCrafts(groups, inv, materials, best).error == DivideByZero
    ensures MaxCrafts(groups, inv, materials, best).Crafts? ==> MaxCrafts(groups, inv, materials, best).count <= best
    ensures MaxCrafts(groups, inv, materials, best).Crafts? ==> forall i :: 0 <= i < |materials| && materials[i].stack != 0 ==>
      MaxCrafts(groups, inv, materials, best).count <= Quota(groups, inv, materials[i])
    ensures MaxCrafts(groups, inv, materials, best).Crafts? ==>
      (MaxCrafts(groups, inv, materials, best).count == best ||
       exists i :: 0 <= i < |materials| && materials[i].stack != 0 &&
         MaxCrafts(groups, inv, materials, best).count == Quota(groups, inv, materials[i]))
    decreases |materials|
  {
    if materials != [] {
      var rest := materials[1..];
      assert forall i :: 0 <= i < |rest| ==> rest[i] == materials[i + 1];
      if materials[0].stack != 0 {
        var n := Quota(groups, inv, materials[0]);
        MaxCraftsFacts(groups, inv, rest, Min(n, best));
        var r := MaxCrafts(groups, inv, rest, Min(n, best));
        if r.Crafts? && r.count != Min(n, best) {
          var i :| 0 <= i < |rest| && rest[i].stack != 0 && r.count == Quota(groups, inv, rest[i]);
          assert materials[i + 1] == rest[i];
        }
        if r.Failed? {
          var i :| 0 <= i < |rest| && rest[i].stack == 0;
          assert materials[i + 1] == rest[i];
        }
      }
    }
  }

  lemma QuotaBounds(s: int, b: int)
    requires 0 <= s && 0 < b
    ensures 0 <= s / b && (s / b) * b <= s < (s / b + 1) * b
  {
  }

  lemma TimesMono(n: int, q: int, b: int)
    requires n <= q && 0 < b
    ensures n * b <= q * b
  {
  }

  /** When every material has a positive stack, the count is the largest
      number of crafts the inventory covers: each material's supply covers
      `count` stacks, and unless the count is the 32-bit ceiling some
      material does not cover one more. */
  lemma MaxCraftsAffordable(groups: GroupRegistry, inv: Inventory, materials: seq<Material>)
    requires forall i :: 0 <= i < |materials| ==> materials[i].stack > 0
    ensures MaxCrafts(groups, inv, materials, IntMax).Crafts?
    ensures 0 <= MaxCrafts(groups, inv, materials, IntMax).count <= IntMax
    ensures forall i :: 0 <= i < |materials| ==>
      MaxCrafts(groups, inv, materials, IntMax).count * materials[i].stack <= Supply(inv, ValidItems(groups, materials[i].key), 0)
    ensures MaxCrafts(groups, inv, materials, IntMax).count < IntMax ==>
      exists i :: 0 <= i < |materials| &&
        (MaxCrafts(groups, inv, materials, IntMax).count + 1) * materials[i].stack > Supply(inv, ValidItems(groups, materials[i].key), 0)
  {
    MaxCraftsFacts(groups, inv, materials, IntMax);
    var n := MaxCrafts(groups, inv, materials, IntMax).count;
    forall i | 0 <= i < |materials| ensures n * materials[i].stack <= Supply(inv, ValidItems(groups, materials[i].key), 0) {
      var s, b := Supply(inv, ValidItems(groups, materials[i].key), 0), materials[i].stack;
      QuotaBounds(s, b);
      TimesMono(n, s / b, b);
    }
    if materials != [] {
      assert 0 <= Quota(groups, inv, materials[0]) by {
        QuotaBounds(Supply(inv, ValidItems(groups, materials[0].key), 0), materials[0].stack);
      }
      if n < 0 {
        var i :| 0 <= i < |materials| && materials[i].stack != 0 && n == Quota(groups, inv, materials[i]);
        QuotaBounds(Supply(inv, ValidItems(groups, materials[i].key), 0), materials[i].stack);
      }
    }
    if n < IntMax {
      var i :| 0 <= i < |materials| && materials[i].stack != 0 && n == Quota(groups, inv, materials[i]);
      QuotaBounds(Supply(inv, ValidItems(groups, materials[i].key), 0), materials[i].stack);
    }
  }

  /** How many times `original` can be crafted from the inventory: the
      materials of one craft are gathered from the trimmed tree, and the
      smallest quota among them wins, starting from the 32-bit ceiling. */
  method GetMaxCraftable(cat: Catalogue, config: Config, original: Recipe, availableInventory: Option<Inventory>,
                         drops: DropHook)
    returns (r: Crafts, ghost materials: seq<Material>, ghost craftingTree: RecipeTreeArena?,
             ghost built: seq<RecipeContext>, ghost builtLeaves: seq<seq<nat>>)
    requires CatalogueOk(cat) && Plannable(cat, original)
    ensures availableInventory.None? ==> r == Failed(ArgumentNull)
    ensures availableInventory.Some? ==>
      && craftingTree != null && craftingTree.Valid() && |craftingTree.contexts| >= 1
      && craftingTree.contexts[0] == RootContext(original, 1)
      && CraftingTree(cat, config, original, 1, 0, built, builtLeaves, craftingTree.roots)
      && TrimmedTree(cat.groups, availableInventory, built, builtLeaves, craftingTree.roots,
                     craftingTree.contexts, craftingTree.leaves)
      && InRange(Bfs(craftingTree.leaves, [0]), 0, |craftingTree.contexts|)
      && AllWellFormed(cat.groups, PopOrder(craftingTree.contexts, Bfs(craftingTree.leaves, [0])))
      && materials == Aggregate(EmptyLedger, cat.groups, drops, PopOrder(craftingTree.contexts, Bfs(craftingTree.leaves, [0]))).materials
      && r == MaxCrafts(cat.groups, availableInventory.value, materials, IntMax)
  {
    if availableInventory.None? {
      return Failed(ArgumentNull), [], null, [], [];
    }
    var ms, _, tree, c0, l0 := GetRequiredMaterials(cat, config, original, 1, availableInventory, drops);
    materials, craftingTree, built, builtLeaves := ms, tree, c0, l0;
    r := MinQuota(cat.groups, availableInventory.value, ms);
  }

  /** The smallest quota over `materials`, with the 32-bit ceiling prepended;
      a zero stack raises the division error. */
  method MinQuota(groups: GroupRegistry, inv: Inventory, materials: seq<Material>) returns (r: Crafts)
    ensures r == MaxCrafts(groups, inv, materials, IntMax)
  {
    var best := IntMax;
    var k := 0;
    while k < |materials|
      invariant 0 <= k <= |materials|
      invariant MaxCrafts(groups, inv, materials[k..], best) == MaxCrafts(groups, inv, materials, IntMax)
    {
      assert materials[k..][1..] == materials[k + 1..];
      var c := GetMaxCraftsAmount(groups, inv, materials[k]);
      if c.Failed? {
        return c;
      }
      best := Min(c.count, best);
      k := k + 1;
    }
    r := Crafts(best);
  }
}
