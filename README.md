# MagicStorage recursive crafting and duplicate selling, in Dafny

This project models two parts of the MagicStorage mod for Terraria.

**Recursive crafting.** A recursive recipe crafts an item together with the
intermediate items it needs. The model covers four steps:

- `RecursiveRecipe.GetCraftingTree` expands the recipe into an *ordered recipe
  tree*. Each node carries a recipe context: the recipe, the node's depth, and
  how many result items it still has to craft.
- `OrderedRecipeTree.TrimBranches` subtracts what an available inventory
  already holds. It clears every branch whose need is met.
- `OrderedRecipeTree.GetRequiredMaterials` walks the tree in processing order.
  It totals the materials needed per item or recipe group. It also totals the
  excess results that the intermediate crafts leave over.
- `RecursiveRecipe.GetMaxCraftable` computes how many crafts an inventory can
  afford.

**Selling duplicates** (`StorageUIState.DoSell`). The storage network keeps one
copy of every unstackable item type, chosen by the sell option:

- no prefix;
- all but the most expensive copy;
- all but the least expensive copy.

The other copies are sold for coins and removed from their storage units.

The files are:

- `common.dfy`: items, recipes, recipe groups, the saturating counter
  (`ClampedArithmetic`) and ceiling division.
- `recipe_tree.dfy`: the ordered recipe tree. It is a class holding an arena
  of nodes, with three columns: `contexts`, `leaves` (the child lists) and
  `roots` (the back-reference to the parent). The file holds `Add`,
  `AddRange`, `Clear`, the breadth-first processing order, the top-down trim,
  the recipe enumeration and the material aggregation.
- `materials.dfy`: the material and excess ledger that `GetRequiredMaterials`
  builds. It has a value-level specification, `Aggregate`, and step methods
  proved against it.
- `resolver.dfy`: the recursive expansion (`GetCraftingTree` and
  `ModifyCraftingTree`), `GetItemCount`, `GetRequiredMaterials` and
  `GetMaxCraftable`.
- `sell.dfy`: the duplicate filter, the three selectors, the sell loop and
  the withdrawal. Storage units are objects whose item lists shrink in place.

Tree nodes are handles into one arena rather than object references.
A child's handle is always greater than its parent's. This makes the arena
acyclic by construction.

The external recipe database is a parameter: the recipe chosen for each
ingredient slot, and whether a recipe has a recursion tree. So are the hooks
of other mods:

- the items a craft drops;
- whether an item may be sold (`CanSellItem`);
- the coin split of a value (`CoinsSplit`);
- strict item equality (`AreStrictlyEqual`).

## Model

| member | source | states |
|---|---|---|
| Common.ClampedAdd | Common/Systems/RecurrentRecipes/RecursiveRecipe.cs:144-154 | the clamped counter's addition stays in [0, int.MaxValue] and is exact whenever the true sum is in range |
| Common.CeilDivBounds | Common/Systems/RecurrentRecipes/RecursiveRecipe.cs:51-52 | the rounded-up batch count is the least number of whole batches covering the amount |
| RecipeTree.RecipeTreeArena.constructor | Common/Systems/RecurrentRecipes/OrderedRecipeTree.cs:16-18 | a new tree is a single node with the given context, no leaves and no Root |
| RecipeTree.RecipeTreeArena.NewNode | Common/Systems/RecurrentRecipes/OrderedRecipeTree.cs:16-18 | a new detached node is allocated; every existing node is unchanged |
| RecipeTree.RecipeTreeArena.Add | Common/Systems/RecurrentRecipes/OrderedRecipeTree.cs:20-23 | the child is appended to the node's leaves and its Root points back at the node; nothing else changes and the forest invariant is kept |
| RecipeTree.RecipeTreeArena.AddRange | Common/Systems/RecurrentRecipes/OrderedRecipeTree.cs:25-30 | the children are appended in order and each child's Root becomes the node; all other back-references stay |
| RecipeTree.RecipeTreeArena.Clear | Common/Systems/RecurrentRecipes/OrderedRecipeTree.cs:32-35 | the node's amount becomes 0 and its leaves are emptied; the children's back-references are left as they were |
| RecipeTree.RecipeTreeArena.GetProcessingOrder | Common/Systems/RecurrentRecipes/OrderedRecipeTree.cs:37-50 | the order is the breadth-first order from the node. It visits every node of the subtree exactly once (a permutation), starts at the node, and puts each parent before its children, so popping the stack processes children first |
| RecipeTree.BfsIsPermutation | Common/Systems/RecurrentRecipes/OrderedRecipeTree.cs:42-47 | the dequeue/enqueue loop emits exactly the nodes of the queued subtrees, as a multiset |
| RecipeTree.BfsStep | Common/Systems/RecurrentRecipes/OrderedRecipeTree.cs:42-47 | one dequeue emits the head and replaces it by its children without losing or adding nodes, and the remaining work shrinks |
| RecipeTree.BfsHead | Common/Systems/RecurrentRecipes/OrderedRecipeTree.cs:42-47 | the output so far followed by the rest of the traversal is unchanged by one loop iteration |
| RecipeTree.FlatAppend | Common/Systems/RecurrentRecipes/OrderedRecipeTree.cs:45-46 | enqueuing children one after another concatenates their subtrees |
| RecipeTree.SubtreeNoRepeats | Common/Systems/RecurrentRecipes/OrderedRecipeTree.cs:20-30 | a tree built only by Add/AddRange never lists a node twice under one root |
| RecipeTree.SiblingsDisjoint | Common/Systems/RecurrentRecipes/OrderedRecipeTree.cs:20-23 | two different leaves of a node have disjoint subtrees |
| RecipeTree.SubtreeAncestor | Common/Systems/RecurrentRecipes/OrderedRecipeTree.cs:14 | every node of a subtree reaches the subtree's root by following Root back-references |
| RecipeTree.BfsLevelSorted | Common/Systems/RecurrentRecipes/OrderedRecipeTree.cs:37-50 | the processing order never returns to a shallower level of the tree |
| RecipeTree.ProcessingOrderFacts | Common/Systems/RecurrentRecipes/OrderedRecipeTree.cs:37-50 | the order from a node has the subtree's size and contents, starts at the node, has no repeats, and a child always comes after its parent |
| RecipeTree.ParentsFirst | Common/Systems/RecurrentRecipes/OrderedRecipeTree.cs:37-50 | in the processing order every leaf comes after the node that lists it |
| RecipeTree.TrimmedContext | Common/Systems/RecurrentRecipes/OrderedRecipeTree.cs:70-82 | a visited branch keeps its recipe and depth; its amount becomes the remaining need when positive, else 0 (cleared) |
| RecipeTree.RecipeTreeArena.TrimVisit | Common/Systems/RecurrentRecipes/OrderedRecipeTree.cs:67-87 | one dequeued branch has the count subtracted. It survives exactly when need remains; otherwise its leaves are dropped |
| RecipeTree.RecipeTreeArena.TrimBranches | Common/Systems/RecurrentRecipes/OrderedRecipeTree.cs:57-89 | every node the top-down trim reaches is trimmed, and a reached node that is covered loses its leaves. Unreached nodes, the top node and all back-references are unchanged |
| RecipeTree.TrimStart | Common/Systems/RecurrentRecipes/OrderedRecipeTree.cs:62-64 | the queue of the top node's leaves is a valid start of the trim |
| RecipeTree.TrimStep | Common/Systems/RecurrentRecipes/OrderedRecipeTree.cs:67-87 | one dequeue keeps the trim invariant: visited and queued nodes are reached, each once, and the visited set grows |
| RecipeTree.TrimStepCleared | Common/Systems/RecurrentRecipes/OrderedRecipeTree.cs:78-82 | visiting a covered branch, without enqueuing its leaves, keeps the invariant |
| RecipeTree.TrimStepSurvived | Common/Systems/RecurrentRecipes/OrderedRecipeTree.cs:83-87 | visiting a branch with remaining need and enqueuing its leaves keeps the invariant |
| RecipeTree.TrimDone | Common/Systems/RecurrentRecipes/OrderedRecipeTree.cs:67-88 | when the queue is empty, the visited nodes are exactly the reached ones |
| RecipeTree.TrimFinal | Common/Systems/RecurrentRecipes/OrderedRecipeTree.cs:57-89 | the arena after the loop is the trimmed arena described by reachability |
| RecipeTree.TrimmedBranchNotQueried | Common/Systems/RecurrentRecipes/OrderedRecipeTree.cs:78-82 | nothing below a cleared branch is ever visited, so the count function is not called for it |
| RecipeTree.ReachedAncestor | Common/Systems/RecurrentRecipes/OrderedRecipeTree.cs:83-87 | the trim reaches a node only through its surviving ancestors |
| RecipeTree.ReachedBelowTop | Common/Systems/RecurrentRecipes/OrderedRecipeTree.cs:62-64 | the trim never visits the top node itself, only nodes below it |
| RecipeTree.Dedup | Common/Systems/RecurrentRecipes/OrderedRecipeTree.cs:96-103 | the enumerated recipes are distinct and are exactly the recipes met |
| RecipeTree.DedupSnoc | Common/Systems/RecurrentRecipes/OrderedRecipeTree.cs:102-103 | a recipe is yielded when it is met for the first time, and otherwise skipped |
| RecipeTree.RecipeTreeArena.GetAllRecipes | Common/Systems/RecurrentRecipes/OrderedRecipeTree.cs:94-108 | yields each recipe of the subtree once, in breadth-first order of first occurrence; every node's recipe is yielded and only those |
| RecipeTree.SubtreeRecipesKept | Common/Systems/RecurrentRecipes/OrderedRecipeTree.cs:94-108 | every node of the subtree has its recipe in the enumeration |
| RecipeTree.SubtreeRecipesOnly | Common/Systems/RecurrentRecipes/OrderedRecipeTree.cs:94-108 | every enumerated recipe belongs to some node of the subtree |
| RecipeTree.ProcessStack | Common/Systems/RecurrentRecipes/OrderedRecipeTree.cs:144-245 | popping the processing stack and folding each context into the ledger gives the aggregate over the pop order, and the ledger stays sound |
| RecipeTree.RecipeTreeArena.GetRequiredMaterials | Common/Systems/RecurrentRecipes/OrderedRecipeTree.cs:118-248 | the materials and excess results are the aggregate over the subtree's contexts in pop order (children before parents); each key and each item type appears once and no stack is negative |
| Materials.OneEntryPerKey | Common/Systems/RecurrentRecipes/OrderedRecipeTree.cs:122-127 | with the index dictionaries kept in step, no key and no excess item type is listed twice |
| Materials.Batches | Common/Systems/RecurrentRecipes/OrderedRecipeTree.cs:149 | the ingredient batches are the least number of whole result stacks that make the amount |
| Materials.DrainEntryFacts | Common/Systems/RecurrentRecipes/OrderedRecipeTree.cs:156-167 | drawing from one excess entry reduces the need by exactly what the pool loses. The need drops to 0 exactly when the entry covers it. Other entries and all item types are untouched |
| Materials.DrainGroupFacts | Common/Systems/RecurrentRecipes/OrderedRecipeTree.cs:174-192 | draining a group's excess reduces the need by exactly what the pool loses and never takes the early exit to checkNonGroup |
| Materials.FirstGroup | Common/Systems/RecurrentRecipes/OrderedRecipeTree.cs:170-172 | the group found is one of the recipe's accepted groups and contains the ingredient; none is found only when no accepted group contains it |
| Materials.FirstGroupIsFirst | Common/Systems/RecurrentRecipes/OrderedRecipeTree.cs:170-172 | the group found is the first in the recipe's order that contains the ingredient: every accepted group listed before it lacks the ingredient |
| Materials.MergeMaterialSound | Common/Systems/RecurrentRecipes/OrderedRecipeTree.cs:197-214 | adding under a key keeps the ledger well indexed and non-negative |
| Materials.MergeMaterialFacts | Common/Systems/RecurrentRecipes/OrderedRecipeTree.cs:197-214 | adding under a key raises that key's total by the amount and leaves every other key's total alone |
| Materials.AddResultFacts | Common/Systems/RecurrentRecipes/OrderedRecipeTree.cs:238-244 | adding an output raises its type's excess by its stack, leaves other types and the materials alone, and keeps the ledger sound |
| Materials.AddResultsFacts | Common/Systems/RecurrentRecipes/OrderedRecipeTree.cs:236-244 | adding all outputs raises each type's excess by the total the outputs hold of it |
| Materials.ReplaceExcessSound | Common/Systems/RecurrentRecipes/OrderedRecipeTree.cs:160-184 | overwriting excess stacks in place, without changing types, keeps the ledger sound |
| Materials.ConsumeIngredientFacts | Common/Systems/RecurrentRecipes/OrderedRecipeTree.cs:152-216 | conservation: what one ingredient takes from the excess plus what it adds to the materials is exactly stack × batches |
| Materials.ExactExcessCovers | Common/Systems/RecurrentRecipes/OrderedRecipeTree.cs:156-162 | when the exact type's excess covers the need, only that excess shrinks and the materials are unchanged |
| Materials.ShortfallUnderItem | Common/Systems/RecurrentRecipes/OrderedRecipeTree.cs:163-167 | without a matching group, the excess is emptied and the shortfall is added under the item's own key, and nowhere else |
| Materials.ShortfallUnderGroup | Common/Systems/RecurrentRecipes/OrderedRecipeTree.cs:169-205 | with a matching group, the remaining need (after group excess, possibly 0) goes under the first matching group's key only |
| Materials.ConsumeAllFacts | Common/Systems/RecurrentRecipes/OrderedRecipeTree.cs:152-216 | conservation over all ingredient slots of a recipe |
| Materials.ProcessContextFacts | Common/Systems/RecurrentRecipes/OrderedRecipeTree.cs:144-245 | a live context consumes its ingredients for whole batches. Its result stack × batches and its drops are added to the excess |
| Materials.AggregateSound | Common/Systems/RecurrentRecipes/OrderedRecipeTree.cs:144-245 | processing any sequence of contexts keeps the ledger sound |
| Materials.Live | Common/Systems/RecurrentRecipes/OrderedRecipeTree.cs:146-147 | the contexts kept are exactly those with a positive amount to craft: every kept one has one, and every one that has one is kept |
| Materials.DeadContextsContributeNothing | Common/Systems/RecurrentRecipes/OrderedRecipeTree.cs:146-147 | trimmed contexts (amount ≤ 0) do not change the result |
| Materials.DrainGroupExcess | Common/Systems/RecurrentRecipes/OrderedRecipeTree.cs:174-192 | the loop over a group's valid items computes the drain specification |
| Materials.ConsumeIngredientStep | Common/Systems/RecurrentRecipes/OrderedRecipeTree.cs:152-216 | the body of the ingredient loop computes the ingredient specification |
| Materials.ProcessContextStep | Common/Systems/RecurrentRecipes/OrderedRecipeTree.cs:146-244 | the body of the context loop computes the context specification |
| Resolver.RootWholeBatches | Common/Systems/RecurrentRecipes/RecursiveRecipe.cs:51-58 | the root node has depth 0 and crafts whole batches: the least multiple of the batch size covering the request |
| Resolver.ChildAmount | Common/Systems/RecurrentRecipes/RecursiveRecipe.cs:104-108 | a child's amount is at most the per-craft requirement and at most its batches' output, and it equals one of the two |
| Resolver.ChildAmountPerCraft | Common/Systems/RecurrentRecipes/RecursiveRecipe.cs:98-108 | the child's batches cover the requirement of all parent batches, yet its amount is the per-craft requirement whenever the parent crafts at least one batch |
| Resolver.ChildSlotsSound | Common/Systems/RecurrentRecipes/RecursiveRecipe.cs:89-96 | the slots that get a child have a candidate recipe and are not blocked; they appear in ingredient order |
| Resolver.ChildSlotsComplete | Common/Systems/RecurrentRecipes/RecursiveRecipe.cs:89-96 | every slot with a candidate recipe that is not blocked gets a child |
| Resolver.ChildSlotsStep | Common/Systems/RecurrentRecipes/RecursiveRecipe.cs:89-96 | one ingredient of the loop adds its slot exactly when it expands |
| Resolver.PlannedStep | Common/Systems/RecurrentRecipes/RecursiveRecipe.cs:110-111 | attaching the planned child of a slot extends the planned list of leaves |
| Resolver.ExtendsTrans | Common/Systems/RecurrentRecipes/RecursiveRecipe.cs:110-114 | nested expansions only ever append nodes |
| Resolver.ExpansionState.constructor | Common/Systems/RecurrentRecipes/RecursiveRecipe.cs:57-59 | an expansion starts with an empty recursion stack, depth and maximum depth 0, and no batch counts recorded |
| Resolver.ExpansionState.Enter | Common/Systems/RecurrentRecipes/RecursiveRecipe.cs:77-87 | entering a recipe pushes its result type, increments the depth and raises the maximum depth to it; the recorded batch counts stay |
| Resolver.ExpansionState.Leave | Common/Systems/RecurrentRecipes/RecursiveRecipe.cs:117-119 | leaving pops the result type and decrements the depth; the maximum depth and the recorded batch counts stay |
| Resolver.ModifyCraftingTree | Common/Systems/RecurrentRecipes/RecursiveRecipe.cs:67-120 | the arena only grows, and only the root gains leaves. If the depth limit is hit, the recipe has no tree, or its result is on the recursion stack (the result types of the root's ancestors), nothing changes. Otherwise the root gains one child per expandable slot, carrying the context and batch count planned for that slot. The recursion stack and depth are restored, and new nodes lie below the current depth and within the limit. Every new node hangs under its Root and is expanded exactly when it recurses: its recipe has a recursive recipe, it is within the depth limit, the recursion tree has a root, and its result type is not among its ancestors'. An expanded node's children are later nodes carrying the contexts planned one level down for its own batch count; every other new node is a leaf |
| Resolver.AttachChild | Common/Systems/RecurrentRecipes/RecursiveRecipe.cs:110-114 | the new node carries the planned context and batch count, is appended to the root's leaves, and has the recursion stack as its ancestors' result types. It is expanded for its batch count exactly when its recipe has a recursive recipe and the expansion step goes ahead with that stack, and is a leaf otherwise. Every node created under it hangs under its Root and is expanded exactly when it recurses |
| Resolver.NewChild | Common/Systems/RecurrentRecipes/RecursiveRecipe.cs:110-111 | `new OrderedRecipeTree` plus `root.Add`: the node is appended with the given context, becomes the root's last leaf with the root as its Root, and has its batch count recorded; nothing else changes |
| Resolver.ChildAncestorTypes | Common/Systems/RecurrentRecipes/RecursiveRecipe.cs:77-114 | the recursion stack inside a child's expansion is its parent's stack plus the parent's result type, read off the back-references |
| Resolver.AttachOutcome | Common/Systems/RecurrentRecipes/RecursiveRecipe.cs:110-114 | attaching a child and expanding it exactly when it recurses leaves it, and every node created after it, expanded exactly when it recurses and hanging under its Root |
| Resolver.AncestorTypesKept | Common/Systems/RecurrentRecipes/RecursiveRecipe.cs:110-114 | the ancestors of an existing node, and so its recursion stack, stay the same while later nodes are appended |
| Resolver.AttachedKept | Common/Systems/RecurrentRecipes/RecursiveRecipe.cs:110-114 | a node hanging under its Root stays there while later siblings are appended |
| Resolver.PlannedKept | Common/Systems/RecurrentRecipes/RecursiveRecipe.cs:110-114 | the children planned for a node stay planned while later nodes are appended |
| Resolver.NodesExactKept | Common/Systems/RecurrentRecipes/RecursiveRecipe.cs:89-115 | a node expanded exactly when it recurses keeps its children, their contexts and its recursion stack while its siblings' subtrees are built |
| Resolver.ExpandSlots | Common/Systems/RecurrentRecipes/RecursiveRecipe.cs:89-115 | the ingredient loop attaches exactly the planned children of the expandable slots, in order |
| Resolver.SlotLoopStep | Common/Systems/RecurrentRecipes/RecursiveRecipe.cs:89-115 | one ingredient keeps the loop invariant |
| Resolver.PlanSlot | Common/Systems/RecurrentRecipes/RecursiveRecipe.cs:90-114 | one ingredient is skipped (no recipe, or blocked) or attached, exactly as the slot predicate says |
| Resolver.GetCraftingTree | Common/Systems/RecurrentRecipes/RecursiveRecipe.cs:50-65 | the root crafts whole batches at depth 0. With recursion off, or when the root's expansion does nothing (depth limit 0, no recursion tree), the tree is the root alone. Otherwise the root is expanded for the whole batches covering the amount. Every other node hangs under its Root at depth ≥ 1 within the limit, and is expanded exactly when it recurses (recursive recipe, within the depth limit, recursion tree present, result type not among its ancestors'), with children planned one level down for its own batch count; otherwise it is a leaf |
| Resolver.ExpansionGuard | Common/Systems/RecurrentRecipes/RecursiveRecipe.cs:75-79 | along every path of a crafting tree a result type is expanded at most once: a node whose result type is among its ancestors' is a leaf |
| Resolver.GroupCount | Common/Systems/RecurrentRecipes/RecursiveRecipe.cs:146-151 | the clamped group total stays in [0, int.MaxValue] |
| Resolver.Lookup | Common/Systems/RecurrentRecipes/RecursiveRecipe.cs:153 | TryGetValue finds an entry exactly when the type is present, and returns that entry's quantity |
| Resolver.GetItemCount | Common/Systems/RecurrentRecipes/RecursiveRecipe.cs:143-157 | the loop computes the item count specification |
| Resolver.GroupCountSaturates | Common/Systems/RecurrentRecipes/RecursiveRecipe.cs:144-151 | with non-negative quantities the clamped group total is the true sum, saturated at int.MaxValue |
| Resolver.GroupCountNoMatch | Common/Systems/RecurrentRecipes/RecursiveRecipe.cs:146-151 | with no group member in the inventory, the group total adds nothing |
| Resolver.ItemCountCases | Common/Systems/RecurrentRecipes/RecursiveRecipe.cs:143-157 | the count is the saturated group total when a group member is present. Otherwise it is the saturated quantity of the exact type, or 0 when absent |
| Resolver.GetRequiredMaterials | Common/Systems/RecurrentRecipes/RecursiveRecipe.cs:131-141 | the tree built is the crafting tree of the amount with no blocked ingredient, expanded node by node as `GetCraftingTree` promises. It is then trimmed by the item count when an inventory is given, and unchanged otherwise. The result is the trimmed tree's aggregate, with distinct keys and non-negative stacks |
| Resolver.TrimAndCollect | Common/Systems/RecurrentRecipes/RecursiveRecipe.cs:134-140 | trim only when an inventory is given, then aggregate from the root |
| Resolver.Supply | Common/Systems/RecurrentRecipes/RecursiveRecipe.cs:174-183 | the clamped supply total stays in [0, int.MaxValue] |
| Resolver.GetMaxCraftsAmount | Common/Systems/RecurrentRecipes/RecursiveRecipe.cs:173-186 | the nested loop computes the quota of one material: the clamped supply of its valid items divided by its stack, or a division error on a zero stack |
| Resolver.MaxCraftsFacts | Common/Systems/RecurrentRecipes/RecursiveRecipe.cs:188 | the minimum fails exactly when some material has a zero stack. Otherwise it is at most the start and every quota, and equals one of them |
| Resolver.MaxCraftsAffordable | Common/Systems/RecurrentRecipes/RecursiveRecipe.cs:165-189 | with positive stacks the answer n is affordable (n × stack ≤ supply for every material), and unless it is int.MaxValue, n + 1 is not |
| Resolver.GetMaxCraftable | Common/Systems/RecurrentRecipes/RecursiveRecipe.cs:165-189 | a missing inventory throws ArgumentNull. Otherwise the tree built is the crafting tree of one item, expanded node by node as `GetCraftingTree` promises, trimmed by the inventory; the materials are its aggregate, and the answer is the minimum quota starting from int.MaxValue |
| Resolver.MinQuota | Common/Systems/RecurrentRecipes/RecursiveRecipe.cs:188 | the Select/Prepend/Min chain computes the minimum quota specification |
| Sell.SellNoPrefix | UI/States/StorageUIState.cs:677-680 | sells the copy exactly when it has no prefix; never swaps |
| Sell.SellExceptMostExpensive | UI/States/StorageUIState.cs:682-691 | always sells; swaps exactly when the copy is worth more, so the keep becomes the more valuable of the two |
| Sell.SellExceptLeastExpensive | UI/States/StorageUIState.cs:693-702 | always sells; swaps exactly when the copy is worth less, so the keep becomes the less valuable of the two |
| Sell.RemoveCount | UI/States/StorageUIState.cs:630 | List.Remove takes out one occurrence, and removing an absent item is a no-op |
| Sell.AllItemsSound | UI/States/StorageUIState.cs:612 | the enumerated items are distinct positions of the storage units |
| Sell.JudgeKeeps | UI/States/StorageUIState.cs:625-633 | judging a strictly-equal copy keeps the type's context consistent: the keep is never among the duplicates, and every duplicate ranks below the keep under the sell option |
| Sell.ConsiderKeeps | UI/States/StorageUIState.cs:617-635 | one filter iteration keeps the whole dictionary consistent |
| Sell.SelectAllKeeps | UI/States/StorageUIState.cs:617-635 | the filter loop keeps the dictionary consistent over any run of distinct items |
| Sell.SelectedConsistent | UI/States/StorageUIState.cs:615-635 | after filtering every stored item, each type's context is consistent |
| Sell.FirstOfType | UI/States/StorageUIState.cs:617-624 | the first eligible item of a type in enumeration order, or none when the type has no eligible item |
| Sell.Copies | UI/States/StorageUIState.cs:625 | the copies of an item are exactly the other eligible items of its type that are strictly equal to it |
| Sell.PlainCopies | UI/States/StorageUIState.cs:625-628 | the copies without a prefix are exactly the copies whose prefix is 0 |
| Sell.KeepInClass | UI/States/StorageUIState.cs:628-633 | under the value options the kept item is always the type's first item or one of its copies |
| Sell.JudgeGathers | UI/States/StorageUIState.cs:625-633 | judging a copy strictly equal to the keep adds it to what the type has gathered: appended under the no-prefix option when it has no prefix; under the value options added to keep-plus-duplicates, with the keep still the first member of its class of the greatest (least) value |
| Sell.PreferredStep | UI/States/StorageUIState.cs:682-702 | the selectors swap only on a strictly greater (smaller) value, so after judging one more member of a class the keep is still the first member of the greatest (least) value |
| Sell.JudgeRanks | UI/States/StorageUIState.cs:625-633 | judging a copy under a value option keeps the keep the first member of its class of the greatest (least) value, in reading order |
| Sell.JudgeCounts | UI/States/StorageUIState.cs:628-632 | under a value option the swap-remove-append step adds exactly the judged item to keep-plus-duplicates |
| Sell.NewTypeGathers | UI/States/StorageUIState.cs:623-624 | the first eligible item of a type becomes its keep with no duplicates |
| Sell.SkipGathers | UI/States/StorageUIState.cs:619-625 | an ineligible item, or one not strictly equal to its type's first item, changes nothing the filter gathered |
| Sell.JudgedGathers | UI/States/StorageUIState.cs:625-633 | a copy strictly equal to the keep is gathered into its type's context |
| Sell.ConsiderGathers | UI/States/StorageUIState.cs:617-635 | one filter iteration gathers the item it reads |
| Sell.SelectAllGathers | UI/States/StorageUIState.cs:617-635 | the filter loop gathers every item of any run of distinct items |
| Sell.SelectedGathers | UI/States/StorageUIState.cs:615-635 | after filtering every stored item, exactly the types with an eligible item have a context. Under the no-prefix option the keep is the type's first item and the duplicates are its copies without a prefix, in order. Under the value options the keep and the duplicates are, between them, the first item and all its copies, and the keep is the first of them, in enumeration order, of the greatest (least) value |
| Sell.DuplicatesStrictlyEqual | UI/States/StorageUIState.cs:625-633 | every duplicate is strictly equal to the item kept for its type |
| Sell.CopiesOrder | UI/States/StorageUIState.cs:617-625 | two copies read in one order are listed among the copies in that order |
| Sell.PreferredUnique | UI/States/StorageUIState.cs:682-702 | under a value option at most one member of a class is the first of the greatest (least) value |
| Sell.KeptFirstPreferred | UI/States/StorageUIState.cs:615-702 | under a value option the item kept for a type is the first member of its class, in enumeration order, of the greatest (least) value: it is worth at least (most) as much as every member and strictly more (less) than every member read before it, and it is the only member that is |
| Sell.GatheredExactly | UI/States/StorageUIState.cs:617-635 | a gathered context's duplicates are exactly the first item and its copies other than the keep, without a prefix under the no-prefix option |
| Sell.DuplicatesExactly | UI/States/StorageUIState.cs:615-702 | an item is a duplicate of its type exactly when it is the type's first eligible item or a copy of it, and: under the no-prefix option not that first item and without a prefix; under the value options not the first member of its class, in enumeration order, of the greatest (least) value |
| Sell.CandidatesFacts | UI/States/StorageUIState.cs:645 | the flattened duplicates are distinct, and each is a duplicate of its own type |
| Sell.RecordIndices | UI/States/StorageUIState.cs:658-661 | recording an index appends it to its unit's list only, and a unit gets a new entry only the first time |
| Sell.RecordFacts | UI/States/StorageUIState.cs:658-661 | recording a fresh index keeps one entry per unit and no repeated indices |
| Sell.SellStepFacts | UI/States/StorageUIState.cs:646-661 | a sellable candidate's index is recorded for its unit; an unsellable one records nothing |
| Sell.SellAllFacts | UI/States/StorageUIState.cs:645-664 | after the sell loop each unit's list is the indices of its sold candidates, in order, with no repeats |
| Sell.SellAllCoins | UI/States/StorageUIState.cs:649-656 | the coins gained are worth the split value of every sold candidate |
| Sell.SoldValueExact | UI/States/StorageUIState.cs:649-656 | when the coin split recombines to the value, the earnings are the sum of the sold items' values |
| Sell.SoldIndicesMeaning | UI/States/StorageUIState.cs:645-661 | an index is recorded for a unit exactly when some sellable candidate sits at that position |
| Sell.PositionsFromStores | UI/States/StorageUIState.cs:612 | distinct stored items occupy distinct positions |
| Sell.StorageUnit.constructor | UI/States/StorageUIState.cs:612 | a storage unit holds the given items |
| Sell.StorageUnit.RemoveAt | UI/States/StorageUIState.cs:669 | RemoveAt shifts the later items down by one |
| Sell.RemoveStep | UI/States/StorageUIState.cs:668-669 | removing a position below all earlier removals removes exactly that item from what is left |
| Sell.DescendingPrefix | UI/States/StorageUIState.cs:668 | in descending order every earlier index is greater than the current one |
| Sell.SortDescendingFacts | UI/States/StorageUIState.cs:668 | OrderByDescending of distinct indices is strictly descending with the same elements |
| Sell.WithdrawFrom | UI/States/StorageUIState.cs:668-669 | removing in descending order leaves exactly the items at positions not withdrawn, so the saved indices are not clobbered |
| Sell.EntryIndices | UI/States/StorageUIState.cs:667 | enumerating the withdrawal dictionary gives each unit its own list |
| Sell.WithdrawAll | UI/States/StorageUIState.cs:667-670 | each storage unit loses exactly the items at its recorded indices |
| Sell.CandidatesSound | UI/States/StorageUIState.cs:612-645 | every candidate is a distinct stored, unstackable item that ranks below its type's keep. Every keep is a stored item of its type and is never a candidate |
| Sell.CandidatesFromStores | UI/States/StorageUIState.cs:612-645 | the candidates are distinct positions of the storage units |
| Sell.SellRecords | UI/States/StorageUIState.cs:645-661 | from an empty dictionary, a position is withdrawn exactly when a sellable candidate sits there |
| Sell.SellWithinStores | UI/States/StorageUIState.cs:645-661 | every withdrawn unit and index exists in the storage snapshot |
| Sell.SaleRecords | UI/States/StorageUIState.cs:603-664 | over a whole sale, a position is withdrawn exactly when it holds a sellable duplicate |
| Sell.SaleWithinStores | UI/States/StorageUIState.cs:603-664 | over a whole sale, every withdrawn position exists |
| Sell.SaleCoins | UI/States/StorageUIState.cs:643-672 | the copper earned is the split value of every sold duplicate |
| Sell.SaleSparesKeeps | UI/States/StorageUIState.cs:617-664 | the item kept for each type is never withdrawn |
| Sell.CandidatesCover | UI/States/StorageUIState.cs:645 | every duplicate of every listed type is a candidate |
| Sell.CandidatesExactly | UI/States/StorageUIState.cs:645 | an item is a candidate exactly when it is a duplicate of its own type |
| Sell.SaleComplete | UI/States/StorageUIState.cs:612-702 | a stored item is withdrawn exactly when the game lets it sell and it is the first eligible item of its type or a copy of it, and: under the no-prefix option it is not that first item and has no prefix; under the value options it is not the first member of its class, in enumeration order, of the greatest (least) value |
| Sell.SelectDuplicates | UI/States/StorageUIState.cs:615-635 | the filter loop, with its skip, new-keep, strictly-equal, swap-and-remove and append branches, computes the filter specification |
| Sell.SellDuplicates | UI/States/StorageUIState.cs:638-664 | the sell loop's coin counters and withdrawal dictionary are the sell specification |
| Sell.DoSell | UI/States/StorageUIState.cs:603-675 | an unknown sell option throws ArgumentOutOfRange and changes nothing. Otherwise the copper earned and the withdrawals are those of the sale over the units' items as they were, and each unit loses exactly its withdrawn positions |

## Left out

- Networking, the progress reports (`NetHelper.Report`) and UI refresh flags (`StorageGUI.needRefresh`) have no effect on the computed results and are not modelled.
- `PlayerLoader.PostSellItem` and the dummy NPC are mod hooks with no effect on the sale's result; they are left out.
- Creative storage units are filtered out before selling (`OfType<TEStorageUnit>`); the model receives only the ordinary units.
- `GetRequiredTiles` and `HasCondition` only project `GetAllRecipes`; they are not modelled.
- The recipe database (`CalculateTree`, `FindBestMatchAndSetRecipe`, `TryGetRecursiveRecipe`, the recipe groups) is external. It is the `Catalogue` parameter, and the choice of recipe per slot is taken as given.
- The craft simulation (`RecipeLoader.OnCraft`, environment modules, `CraftingGUI.DroppedItems`) is the `drops` parameter; the hooks are assumed not to change the created item's stack.
- Dictionary enumeration order is taken to be insertion order. This holds for .NET dictionaries without removals, and neither dictionary in `DoSell` ever removes an entry.
- `unitsUpdated` is keyed by a unit's position. The model keys withdrawals by the unit itself, assuming one unit per position.
- `Materials.Batches`, `Common.CeilDivBounds`: `Math.Ceiling` over `double` is modelled as exact integer ceiling division; floating-point rounding is not modelled.
- `Resolver.ChildAmount`: `Math.Ceiling(required / (double)batchSize * parentBatches)` is modelled as the exact ceiling of `required * parentBatches / batchSize`. Its `(int)` cast (`RecursiveRecipe.cs:105`) and the 32-bit product `batches * batchSize` (`RecursiveRecipe.cs:108`) are unbounded integers in the model; overflow is not modelled.
- `Materials.ConsumeIngredient`: the 32-bit product `item.stack * ingredientBatches` (`OrderedRecipeTree.cs:154`) is an unbounded integer in the model; overflow is not modelled.
- `Materials.ProcessContext`: the 32-bit `createItem.stack *= ingredientBatches` (`OrderedRecipeTree.cs:234`) is an unbounded integer in the model; overflow is not modelled.
- `Resolver.GetMaxCraftsAmount`: the division of the clamped counter by a zero stack is modelled as a `DivideByZero` failure; the clamped type's own behaviour there is not modelled.
- `Sell.DoSell`: the 32-bit `int` coin counters, the `int` products `gold * 10000` and `silver * 100`, and the `long` total are unbounded integers in the model; overflow is not modelled.
- `Resolver.GetCraftingTree`: the 32-bit product `batches * batchSize` is unbounded in the model; overflow is not modelled.
- `Resolver.ModifyCraftingTree`: two questions about the recipe database are yes/no parameters of the catalogue. The early return when the recursion tree has no root (`tree.Root is null`) is `hasRoot`. `TryGetRecursiveRecipe` is `hasRecursive`. The trees themselves are not modelled.
- The goto at `OrderedRecipeTree.cs:189-190` can never be taken, because the branch that reaches it always leaves a positive need. The model keeps the flag and proves it is never set (`Materials.DrainGroupFacts`).
- The swap path's `duplicates.Remove(context.keep)` at `StorageUIState.cs:630` is modelled as written. After the swap the keep is the incoming item, which is never among the duplicates, so the removal does nothing.
- `Common.WellFormedRecipe`: every accepted group of a recipe is taken to be registered, so the lookup `RecipeGroup.recipeGroups[groupID]` (`OrderedRecipeTree.cs:171`) never throws; its `KeyNotFoundException` is not modelled. It also requires a positive result stack (`createItem.stack > 0`), and `Resolver.GetCraftingTree`, `Resolver.GetRequiredMaterials`, `Resolver.GetMaxCraftable` and `RecipeTree.RecipeTreeArena.GetRequiredMaterials` inherit that requirement. A recipe whose result stack is 0 is outside the model's domain. The source divides by `(double)createItem.stack` (`RecursiveRecipe.cs:52`, `RecursiveRecipe.cs:105`, `OrderedRecipeTree.cs:149`), which gives an infinite or NaN double there, and the `(int)` cast of such a value is unspecified in C#, so there is no defined result to model.
- `Materials.MergeMaterial`, `Materials.AddResult`: the running totals are 32-bit sums in the source (`UpdateStack(stack)` at `OrderedRecipeTree.cs:201` and `OrderedRecipeTree.cs:214`, `UpdateStack(item.stack)` at `OrderedRecipeTree.cs:243`). The model accumulates them as unbounded integers, and wrap-around is not modelled. The non-negative totals stated by `Materials.MergeMaterialFacts`, `Materials.AddResultsFacts` and `RecipeTree.RecipeTreeArena.GetRequiredMaterials` rely on this.
- `Common.RecipeGroupMatch`: `CraftingGUI.RecipeGroupMatch` (`RecursiveRecipe.cs:95`, `RecursiveRecipe.cs:147`) is external, and `CraftingGUI` is not part of this model. It is modelled by a presumed definition: some accepted group of the recipe contains both item types. The proofs use it only as a yes/no test for blocking an ingredient and for counting an inventory entry, and none of them depends on this definition.
- `Resolver.ChildSlots`: the root's ingredient trees are taken to be the recipe's ingredient slots, one per slot in ingredient order (`RecursiveRecipe.cs:89-93`); `RecipeCount == 0` is a slot for which `select` gives no recipe.
- `Sell.SelectedGathers`, `Sell.SaleComplete`, `Sell.DuplicatesStrictlyEqual`: under the two value options they assume `Utility.AreStrictlyEqual` is symmetric and transitive, as a comparison of items is; it is a parameter, since `Utility` is not part of this model. With an arbitrary relation a swap could change which copies later items are compared against. Under the no-prefix option nothing is assumed.
- A matched recipe group whose members' excess covers the whole need still gets a material entry of size 0 (`Materials.ShortfallUnderGroup` allows it). The model keeps this behaviour.
