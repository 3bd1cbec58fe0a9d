/** The ordered recipe tree: a tree of (recipe, depth, amountToCraft)
    contexts. Every tree node of one resolution session lives in an arena; a
    node is a handle (an index into the arena's columns), its `Leaves` are
    `leaves[node]`, its `Root` back-reference is `roots[node]` (-1 for none)
    and its context is `contexts[node]`. */
module RecipeTree {
  import opened Common
  import opened Materials

  // ---------------------------------------------------------------------
  // Shape of the arena
  // ---------------------------------------------------------------------

  /** Every child handle is a valid handle greater than its parent's. */
  ghost predicate Ordered(leaves: seq<seq<nat>>)
  {
    forall n, k :: 0 <= n < |leaves| && 0 <= k < |leaves[n]| ==> n < leaves[n][k] < |leaves|
  }

  /** The arena holds a forest: children come after their parent, a child's
      back-reference names the node listing it, and no list repeats a child.
      The back-reference of a detached child may still name its former parent,
      because clearing a node does not reset it. */
  ghost predicate Forest(leaves: seq<seq<nat>>, roots: seq<int>)
  {
    && |roots| == |leaves|
    && Ordered(leaves)
    && (forall n, k :: 0 <= n < |leaves| && 0 <= k < |leaves[n]| ==> roots[leaves[n][k]] == n)
    && (forall n, i, j :: 0 <= n < |leaves| && 0 <= i < j < |leaves[n]| ==> leaves[n][i] != leaves[n][j])
    && ParentsBefore(roots)
  }

  /** Every back-reference is -1 or an earlier handle. */
  ghost predicate ParentsBefore(roots: seq<int>)
  {
    forall c :: 0 <= c < |roots| ==> -1 <= roots[c] < c
  }

  ghost predicate InRange(cs: seq<nat>, lo: int, hi: int)
  {
    forall i :: 0 <= i < |cs| ==> lo <= cs[i] < hi
  }

  /** The handles of a subtree in pre-order. */
  ghost function Subtree(leaves: seq<seq<nat>>, n: nat): seq<nat>
    requires Ordered(leaves) && n < |leaves|
    decreases |leaves| - n, 1
  {
    [n] + Flat(leaves, leaves[n], n + 1)
  }

  /** The concatenated subtrees of a sequence of handles, all at least `lo`. */
  ghost function Flat(leaves: seq<seq<nat>>, cs: seq<nat>, lo: nat): seq<nat>
    requires Ordered(leaves) && lo <= |leaves| && InRange(cs, lo, |leaves|)
    decreases |leaves| - lo + 1, 0, |cs|
  {
    if cs == [] then [] else Subtree(leaves, cs[0]) + Flat(leaves, cs[1..], lo)
  }

  lemma {:induction false} FlatLo(leaves: seq<seq<nat>>, cs: seq<nat>, lo1: nat, lo2: nat)
    requires Ordered(leaves) && lo1 <= |leaves| && lo2 <= |leaves|
    requires InRange(cs, lo1, |leaves|) && InRange(cs, lo2, |leaves|)
    ensures Flat(leaves, cs, lo1) == Flat(leaves, cs, lo2)
    decreases |cs|
  {
    if cs != [] {
      FlatLo(leaves, cs[1..], lo1, lo2);
    }
  }

  lemma {:induction false} FlatAppend(leaves: seq<seq<nat>>, a: seq<nat>, b: seq<nat>)
    requires Ordered(leaves) && InRange(a, 0, |leaves|) && InRange(b, 0, |leaves|)
    ensures Flat(leaves, a + b, 0) == Flat(leaves, a, 0) + Flat(leaves, b, 0)
    decreases |a|
  {
    if a != [] {
      var ab := a + b;
      assert ab[0] == a[0] && ab[1..] == a[1..] + b;
      assert InRange(a[1..], 0, |leaves|);
      FlatAppend(leaves, a[1..], b);
      assert Flat(leaves, ab, 0) == Subtree(leaves, a[0]) + Flat(leaves, a[1..] + b, 0);
      assert Flat(leaves, a, 0) == Subtree(leaves, a[0]) + Flat(leaves, a[1..], 0);
    } else {
      assert a + b == b;
    }
  }

  /** Dequeuing one handle and enqueueing its children removes exactly that
      handle from the flattened queue. */
  lemma {:induction false} BfsStep(leaves: seq<seq<nat>>, q: seq<nat>)
    requires Ordered(leaves) && q != [] && InRange(q, 0, |leaves|)
    ensures InRange(q[1..] + leaves[q[0]], 0, |leaves|)
    ensures multiset(Flat(leaves, q, 0)) == multiset{q[0]} + multiset(Flat(leaves, q[1..] + leaves[q[0]], 0))
    ensures |Flat(leaves, q[1..] + leaves[q[0]], 0)| < |Flat(leaves, q, 0)|
  {
    var c := leaves[q[0]];
    assert InRange(c, q[0] + 1, |leaves|);
    var rest := Flat(leaves, q[1..], 0);
    var kids := Flat(leaves, c, 0);
    FlatAppend(leaves, q[1..], c);
    FlatLo(leaves, c, 0, q[0] + 1);
    assert Flat(leaves, q[1..] + c, 0) == rest + kids;
    assert Flat(leaves, q, 0) == [q[0]] + kids + rest;
  }

  /** Breadth-first order of the handles reachable from a queue: dequeue the
      head, emit it, enqueue its children. */
  ghost function Bfs(leaves: seq<seq<nat>>, q: seq<nat>): seq<nat>
    requires Ordered(leaves) && InRange(q, 0, |leaves|)
    decreases |Flat(leaves, q, 0)|
  {
    if q == [] then []
    else
      BfsStep(leaves, q);
      [q[0]] + Bfs(leaves, q[1..] + leaves[q[0]])
  }

  /** Emitting the head of the queue moves it from the pending order to the
      emitted prefix. */
  lemma {:induction false} BfsHead(leaves: seq<seq<nat>>, q: seq<nat>, done: seq<nat>)
    requires Ordered(leaves) && q != [] && InRange(q, 0, |leaves|)
    ensures InRange(q[1..] + leaves[q[0]], 0, |leaves|)
    ensures done + Bfs(leaves, q) == (done + [q[0]]) + Bfs(leaves, q[1..] + leaves[q[0]])
    ensures |Bfs(leaves, q[1..] + leaves[q[0]])| < |Bfs(leaves, q)|
  {
    BfsStep(leaves, q);
  }

  /** Breadth-first order visits exactly the handles of the flattened queue,
      each as often as it occurs there. */
  lemma {:induction false} BfsIsPermutation(leaves: seq<seq<nat>>, q: seq<nat>)
    requires Ordered(leaves) && InRange(q, 0, |leaves|)
    ensures multiset(Bfs(leaves, q)) == multiset(Flat(leaves, q, 0))
    decreases |Flat(leaves, q, 0)|
  {
    if q != [] {
      BfsStep(leaves, q);
      BfsIsPermutation(leaves, q[1..] + leaves[q[0]]);
    }
  }

  // ---------------------------------------------------------------------
  // Ancestry: every node of a subtree reaches its root by back-references
  // ---------------------------------------------------------------------

  /** The handle reached from `x` after `k` steps along back-references (-1
      once the walk leaves the forest). */
  ghost function Up(roots: seq<int>, x: nat, k: nat): int
    requires x < |roots| && ParentsBefore(roots)
    ensures -1 <= Up(roots, x, k) <= x
  {
    if k == 0 then x
    else
      var u := Up(roots, x, k - 1);
      if u < 0 then -1 else roots[u]
  }

  lemma {:induction false} UpDecreasing(roots: seq<int>, x: nat, i: nat, j: nat)
    requires x < |roots| && ParentsBefore(roots)
    requires i < j && Up(roots, x, i) >= 0
    ensures Up(roots, x, j) < Up(roots, x, i)
    decreases j - i
  {
    if j > i + 1 {
      UpDecreasing(roots, x, i, j - 1);
    }
  }

  lemma {:induction false} FlatMember(leaves: seq<seq<nat>>, cs: seq<nat>, lo: nat, x: nat)
    requires Ordered(leaves) && lo <= |leaves| && InRange(cs, lo, |leaves|)
    requires x in Flat(leaves, cs, lo)
    ensures exists j :: 0 <= j < |cs| && x in Subtree(leaves, cs[j])
    decreases |cs|
  {
    if x !in Subtree(leaves, cs[0]) {
      FlatMember(leaves, cs[1..], lo, x);
      var j :| 0 <= j < |cs[1..]| && x in Subtree(leaves, cs[1..][j]);
      assert x in Subtree(leaves, cs[j + 1]);
    }
  }

  lemma {:induction false} SubtreeAncestor(leaves: seq<seq<nat>>, roots: seq<int>, c: nat, x: nat)
    requires Forest(leaves, roots) && c < |leaves| && x in Subtree(leaves, c)
    ensures x < |roots| && exists k :: Up(roots, x, k) == c
    decreases |leaves| - c
  {
    if x != c {
      FlatMember(leaves, leaves[c], c + 1, x);
      var j :| 0 <= j < |leaves[c]| && x in Subtree(leaves, leaves[c][j]);
      var d := leaves[c][j];
      SubtreeAncestor(leaves, roots, d, x);
      var k: nat :| Up(roots, x, k) == d;
      assert Up(roots, x, k + 1) == roots[d] == c;
    } else {
      assert Up(roots, x, 0) == c;
    }
  }

  lemma {:induction false} SubtreeBounds(leaves: seq<seq<nat>>, n: nat, x: nat)
    requires Ordered(leaves) && n < |leaves| && x in Subtree(leaves, n)
    ensures n <= x < |leaves|
    decreases |leaves| - n
  {
    if x != n {
      FlatMember(leaves, leaves[n], n + 1, x);
      var j :| 0 <= j < |leaves[n]| && x in Subtree(leaves, leaves[n][j]);
      SubtreeBounds(leaves, leaves[n][j], x);
    }
  }

  /** Subtrees of two distinct siblings share no node. */
  lemma {:induction false} SiblingsDisjoint(leaves: seq<seq<nat>>, roots: seq<int>, n: nat, i: nat, j: nat, x: nat)
    requires Forest(leaves, roots) && n < |leaves| && i < j < |leaves[n]|
    ensures !(x in Subtree(leaves, leaves[n][i]) && x in Subtree(leaves, leaves[n][j]))
  {
    var a, b := leaves[n][i], leaves[n][j];
    if x in Subtree(leaves, a) && x in Subtree(leaves, b) {
      SubtreeAncestor(leaves, roots, a, x);
      SubtreeAncestor(leaves, roots, b, x);
      var ka: nat :| Up(roots, x, ka) == a;
      var kb: nat :| Up(roots, x, kb) == b;
      assert Up(roots, x, ka + 1) == n == Up(roots, x, kb + 1);
      if ka < kb {
        UpDecreasing(roots, x, ka + 1, kb + 1);
      } else if kb < ka {
        UpDecreasing(roots, x, kb + 1, ka + 1);
      }
      assert false;
    }
  }

  ghost predicate NoRepeats(s: seq<nat>)
  {
    forall i, j :: 0 <= i < j < |s| ==> s[i] != s[j]
  }

  lemma {:induction false} NoRepeatsConcat(a: seq<nat>, b: seq<nat>)
    requires NoRepeats(a) && NoRepeats(b)
    requires forall x :: x in a ==> x !in b
    ensures NoRepeats(a + b)
  {
    forall i, j | 0 <= i < j < |a + b| ensures (a + b)[i] != (a + b)[j] {
      if i < |a| && j >= |a| {
        assert (a + b)[i] in a && (a + b)[j] in b;
      }
    }
  }

  /** The children of `n` from the `from`-th on, flattened, repeat no node. */
  lemma {:induction false} ChildrenNoRepeats(leaves: seq<seq<nat>>, roots: seq<int>, n: nat, from: nat)
    requires Forest(leaves, roots) && n < |leaves| && from <= |leaves[n]|
    ensures NoRepeats(Flat(leaves, leaves[n][from..], n + 1))
    decreases |leaves| - n, |leaves[n]| - from
  {
    var cs := leaves[n][from..];
    if cs != [] {
      assert cs[1..] == leaves[n][from + 1..];
      SubtreeNoRepeats(leaves, roots, cs[0]);
      ChildrenNoRepeats(leaves, roots, n, from + 1);
      forall x | x in Subtree(leaves, cs[0]) ensures x !in Flat(leaves, cs[1..], n + 1) {
        if x in Flat(leaves, cs[1..], n + 1) {
          FlatMember(leaves, cs[1..], n + 1, x);
          var j :| 0 <= j < |cs[1..]| && x in Subtree(leaves, cs[1..][j]);
          SiblingsDisjoint(leaves, roots, n, from, from + 1 + j, x);
        }
      }
      NoRepeatsConcat(Subtree(leaves, cs[0]), Flat(leaves, cs[1..], n + 1));
    }
  }

  /** A subtree of a forest lists every node once. */
  lemma {:induction false} SubtreeNoRepeats(leaves: seq<seq<nat>>, roots: seq<int>, n: nat)
    requires Forest(leaves, roots) && n < |leaves|
    ensures NoRepeats(Subtree(leaves, n))
    decreases |leaves| - n, |leaves[n]| + 1
  {
    ChildrenNoRepeats(leaves, roots, n, 0);
    assert leaves[n][0..] == leaves[n];
    var kids := Flat(leaves, leaves[n], n + 1);
    forall i | 0 <= i < |kids| ensures kids[i] != n {
      var x := kids[i];
      FlatMember(leaves, leaves[n], n + 1, x);
      var j :| 0 <= j < |leaves[n]| && x in Subtree(leaves, leaves[n][j]);
      SubtreeBounds(leaves, leaves[n][j], x);
    }
    NoRepeatsConcat([n], Flat(leaves, leaves[n], n + 1));
  }

  lemma {:induction false} NoRepeatsCount(b: seq<nat>)
    requires NoRepeats(b)
    ensures forall x :: multiset(b)[x] <= 1
  {
    if b != [] {
      var p := b[..|b| - 1];
      assert b == p + [b[|b| - 1]];
      NoRepeatsCount(p);
      assert b[|b| - 1] !in p;
    }
  }

  lemma {:induction false} NoRepeatsFromMultiset(a: seq<nat>, b: seq<nat>)
    requires NoRepeats(b) && multiset(a) == multiset(b)
    ensures NoRepeats(a)
  {
    forall i, j | 0 <= i < j < |a| ensures a[i] != a[j] {
      if a[i] == a[j] {
        TwiceCounted(a, i, j);
        NoRepeatsCount(b);
        assert false;
      }
    }
  }

  lemma TwiceCounted(a: seq<nat>, i: nat, j: nat)
    requires i < j < |a| && a[i] == a[j]
    ensures multiset(a)[a[i]] >= 2
  {
    var x := a[i];
    var s1, s2, s3 := a[..i], a[i + 1..j], a[j + 1..];
    assert a == s1 + [x] + s2 + [x] + s3;
    assert multiset(a) == multiset(s1) + multiset{x} + multiset(s2) + multiset{x} + multiset(s3);
  }

  // ---------------------------------------------------------------------
  // Levels: breadth-first order never goes back to a shallower level
  // ---------------------------------------------------------------------

  /** The number of back-reference steps from `x` to a node without a Root. */
  ghost function Level(roots: seq<int>, x: nat): nat
    requires x < |roots| && ParentsBefore(roots)
    decreases x
  {
    if roots[x] < 0 then 0 else 1 + Level(roots, roots[x])
  }

  ghost predicate LevelSorted(roots: seq<int>, s: seq<nat>)
    requires InRange(s, 0, |roots|) && ParentsBefore(roots)
  {
    forall i, j :: 0 <= i < j < |s| ==> Level(roots, s[i]) <= Level(roots, s[j])
  }

  /** Dequeuing the head and enqueueing its children keeps the queue's
      levels sorted and within two consecutive levels, none above the head's. */
  lemma {:induction false} QueueLevelStep(leaves: seq<seq<nat>>, roots: seq<int>, q: seq<nat>)
    requires Forest(leaves, roots) && q != [] && InRange(q, 0, |leaves|)
    requires LevelSorted(roots, q)
    requires forall i :: 0 <= i < |q| ==> Level(roots, q[i]) <= Level(roots, q[0]) + 1
    ensures InRange(q[1..] + leaves[q[0]], 0, |leaves|)
    ensures LevelSorted(roots, q[1..] + leaves[q[0]])
    ensures forall i :: 0 <= i < |q[1..] + leaves[q[0]]| ==>
      Level(roots, q[0]) <= Level(roots, (q[1..] + leaves[q[0]])[i]) <= Level(roots, (q[1..] + leaves[q[0]])[0]) + 1
  {
    var b := q[0];
    assert InRange(leaves[b], b + 1, |leaves|);
    forall k | 0 <= k < |leaves[b]| ensures Level(roots, leaves[b][k]) == Level(roots, b) + 1 {
      assert roots[leaves[b][k]] == b;
    }
    DequeueLevels(roots, q, leaves[b]);
  }

  /** The queue step on levels alone: the head's children sit one level
      below the head. */
  lemma {:induction false} DequeueLevels(roots: seq<int>, q: seq<nat>, c: seq<nat>)
    requires ParentsBefore(roots) && q != [] && InRange(q, 0, |roots|) && InRange(c, 0, |roots|)
    requires LevelSorted(roots, q)
    requires forall i :: 0 <= i < |q| ==> Level(roots, q[i]) <= Level(roots, q[0]) + 1
    requires forall k :: 0 <= k < |c| ==> Level(roots, c[k]) == Level(roots, q[0]) + 1
    ensures InRange(q[1..] + c, 0, |roots|)
    ensures LevelSorted(roots, q[1..] + c)
    ensures forall i :: 0 <= i < |q[1..] + c| ==>
      Level(roots, q[0]) <= Level(roots, (q[1..] + c)[i]) <= Level(roots, (q[1..] + c)[0]) + 1
  {
    var b := q[0];
    var q' := q[1..] + c;
    forall i | 0 <= i < |q'| ensures 0 <= q'[i] < |roots| {
      if i < |q| - 1 {
        assert q'[i] == q[i + 1];
      } else {
        assert q'[i] == c[i - (|q| - 1)];
      }
    }
    forall i, j | 0 <= i < j < |q'| ensures Level(roots, q'[i]) <= Level(roots, q'[j]) {
      if j < |q| - 1 {
        assert q'[i] == q[i + 1] && q'[j] == q[j + 1];
      } else if i < |q| - 1 {
        assert q'[i] == q[i + 1] && q'[j] == c[j - (|q| - 1)];
      } else {
        assert q'[i] == c[i - (|q| - 1)] && q'[j] == c[j - (|q| - 1)];
      }
    }
    forall i | 0 <= i < |q'| ensures Level(roots, b) <= Level(roots, q'[i]) <= Level(roots, q'[0]) + 1 {
      if i < |q| - 1 {
        assert q'[i] == q[i + 1];
      } else {
        assert q'[i] == c[i - (|q| - 1)];
      }
      if |q| > 1 {
        assert q'[0] == q[1];
      } else {
        assert q'[0] == c[0];
      }
    }
  }

  lemma {:induction false} LevelSortedCons(roots: seq<int>, b: nat, r: seq<nat>)
    requires ParentsBefore(roots) && b < |roots| && InRange(r, 0, |roots|) && LevelSorted(roots, r)
    requires forall i :: 0 <= i < |r| ==> Level(roots, b) <= Level(roots, r[i])
    ensures InRange([b] + r, 0, |roots|) && LevelSorted(roots, [b] + r)
  {
    var r' := [b] + r;
    forall i, j | 0 <= i < j < |r'| ensures Level(roots, r'[i]) <= Level(roots, r'[j]) {
      assert r'[j] == r[j - 1];
      if i > 0 {
        assert r'[i] == r[i - 1];
      }
    }
  }

  /** A queue whose levels are sorted and span at most two consecutive levels
      produces a breadth-first order whose levels are sorted. */
  lemma {:induction false} BfsLevelSorted(leaves: seq<seq<nat>>, roots: seq<int>, q: seq<nat>)
    requires Forest(leaves, roots) && InRange(q, 0, |leaves|)
    requires LevelSorted(roots, q)
    requires forall i :: 0 <= i < |q| ==> Level(roots, q[i]) <= Level(roots, q[0]) + 1
    ensures InRange(Bfs(leaves, q), 0, |leaves|)
    ensures LevelSorted(roots, Bfs(leaves, q))
    ensures q != [] ==> forall i :: 0 <= i < |Bfs(leaves, q)| ==> Level(roots, q[0]) <= Level(roots, Bfs(leaves, q)[i])
    decreases |Bfs(leaves, q)|
  {
    if q != [] {
      var b := q[0];
      var q' := q[1..] + leaves[b];
      BfsHead(leaves, q, []);
      QueueLevelStep(leaves, roots, q);
      BfsLevelSorted(leaves, roots, q');
      LevelSortedCons(roots, b, Bfs(leaves, q'));
    }
  }

  /** The facts about the processing order of the subtree rooted at `n`:
      every node once, `n` first (the bottom of the stack), and every child
      after its parent (so it is popped before its parent). */
  lemma {:induction false} ProcessingOrderFacts(leaves: seq<seq<nat>>, roots: seq<int>, n: nat)
    requires Forest(leaves, roots) && n < |leaves|
    ensures |Bfs(leaves, [n])| == |Subtree(leaves, n)|
    ensures multiset(Bfs(leaves, [n])) == multiset(Subtree(leaves, n))
    ensures Bfs(leaves, [n])[0] == n
    ensures NoRepeats(Bfs(leaves, [n]))
    ensures InRange(Bfs(leaves, [n]), 0, |leaves|)
    ensures forall i, j :: 0 <= i < |Bfs(leaves, [n])| && 0 <= j < |Bfs(leaves, [n])| ==>
      (Bfs(leaves, [n])[j] in leaves[Bfs(leaves, [n])[i]] ==> i < j)
  {
    var r := Bfs(leaves, [n]);
    BfsIsPermutation(leaves, [n]);
    assert Flat(leaves, [n], 0) == Subtree(leaves, n);
    assert |r| == |multiset(r)| == |multiset(Subtree(leaves, n))| == |Subtree(leaves, n)|;
    SubtreeNoRepeats(leaves, roots, n);
    NoRepeatsFromMultiset(r, Subtree(leaves, n));
    ParentsFirst(leaves, roots, n);
  }

  /** In the processing order of `n`'s subtree a parent comes before each of
      its children. */
  lemma ParentsFirst(leaves: seq<seq<nat>>, roots: seq<int>, n: nat)
    requires Forest(leaves, roots) && n < |leaves|
    ensures InRange(Bfs(leaves, [n]), 0, |leaves|)
    ensures forall i, j :: 0 <= i < |Bfs(leaves, [n])| && 0 <= j < |Bfs(leaves, [n])| ==>
      (Bfs(leaves, [n])[j] in leaves[Bfs(leaves, [n])[i]] ==> i < j)
  {
    var r := Bfs(leaves, [n]);
    BfsLevelSorted(leaves, roots, [n]);
    forall i, j | 0 <= i < |r| && 0 <= j < |r| && r[j] in leaves[r[i]] ensures i < j {
      var k :| 0 <= k < |leaves[r[i]]| && leaves[r[i]][k] == r[j];
      assert roots[r[j]] == r[i];
      assert Level(roots, r[j]) == Level(roots, r[i]) + 1;
    }
  }

  // ---------------------------------------------------------------------
  // Trimming: which nodes a top-down trim visits
  // ---------------------------------------------------------------------

  /** What the count function reports as on hand for a context's result. */
  function OnHand(c: RecipeContext, count: (Recipe, int) -> int): int
  {
    count(c.recipe, c.recipe.createItem.itemType)
  }

  /** Whether a visited branch still needs crafting once the on-hand count is
      subtracted. */
  predicate Survives(ctxs: seq<RecipeContext>, count: (Recipe, int) -> int, x: nat)
    requires x < |ctxs|
  {
    ctxs[x].amountToCraft - OnHand(ctxs[x], count) > 0
  }

  /** A visited context after the trim: the on-hand count is subtracted, and a
      branch that is covered is cleared to zero. */
  function TrimmedContext(c: RecipeContext, count: (Recipe, int) -> int): (t: RecipeContext)
    ensures t.recipe == c.recipe && t.depth == c.depth
    ensures t.amountToCraft > 0 <==> c.amountToCraft - OnHand(c, count) > 0
    ensures t.amountToCraft > 0 ==> t.amountToCraft == c.amountToCraft - OnHand(c, count)
    ensures t.amountToCraft >= 0
  {
    var remaining := c.amountToCraft - count(c.recipe, c.recipe.createItem.itemType);
    if remaining <= 0 then c.(amountToCraft := 0) else c.(amountToCraft := remaining)
  }

  /** Whether trimming from `top` visits `x`: `x` is a child of `top`, or a
      child of a visited node that survived its own visit. */
  ghost predicate Reached(leaves: seq<seq<nat>>, roots: seq<int>, ctxs: seq<RecipeContext>,
                          count: (Recipe, int) -> int, top: nat, x: nat)
    requires Forest(leaves, roots) && |ctxs| == |leaves|
    decreases x
  {
    && x < |roots|
    && 0 <= roots[x]
    && x in leaves[roots[x]]
    && (roots[x] == top || (Reached(leaves, roots, ctxs, count, top, roots[x] as nat) && Survives(ctxs, count, roots[x] as nat)))
  }

  lemma {:induction false} ReachedBelowTop(leaves: seq<seq<nat>>, roots: seq<int>, ctxs: seq<RecipeContext>,
                                           count: (Recipe, int) -> int, top: nat, x: nat)
    requires Forest(leaves, roots) && |ctxs| == |leaves|
    requires Reached(leaves, roots, ctxs, count, top, x)
    ensures top < x
    decreases x
  {
    if roots[x] != top {
      ReachedBelowTop(leaves, roots, ctxs, count, top, roots[x] as nat);
    }
  }

  /** A node of a subtree below `top` is visited only if the subtree's root is. */
  lemma {:induction false} ReachedAncestor(leaves: seq<seq<nat>>, roots: seq<int>, ctxs: seq<RecipeContext>,
                                           count: (Recipe, int) -> int, top: nat, c: nat, y: nat)
    requires Forest(leaves, roots) && |ctxs| == |leaves| && top < c < |leaves|
    requires y in Subtree(leaves, c) && Reached(leaves, roots, ctxs, count, top, y)
    ensures Reached(leaves, roots, ctxs, count, top, c)
    decreases |leaves| - c
  {
    if y != c {
      FlatMember(leaves, leaves[c], c + 1, y);
      var j :| 0 <= j < |leaves[c]| && y in Subtree(leaves, leaves[c][j]);
      var d := leaves[c][j];
      ReachedAncestor(leaves, roots, ctxs, count, top, d, y);
      assert roots[d] == c;
    }
  }

  /** Trimming never visits a strict descendant of a branch it cleared, so the
      count function is never asked about it. */
  lemma {:induction false} TrimmedBranchNotQueried(leaves: seq<seq<nat>>, roots: seq<int>, ctxs: seq<RecipeContext>,
                                count: (Recipe, int) -> int, top: nat, x: nat, y: nat)
    requires Forest(leaves, roots) && |ctxs| == |leaves| && x < |leaves|
    requires Reached(leaves, roots, ctxs, count, top, x) && !Survives(ctxs, count, x)
    requires y in Subtree(leaves, x) && y != x
    ensures !Reached(leaves, roots, ctxs, count, top, y)
  {
    ReachedBelowTop(leaves, roots, ctxs, count, top, x);
    FlatMember(leaves, leaves[x], x + 1, y);
    var j :| 0 <= j < |leaves[x]| && y in Subtree(leaves, leaves[x][j]);
    var c := leaves[x][j];
    if Reached(leaves, roots, ctxs, count, top, y) {
      ReachedAncestor(leaves, roots, ctxs, count, top, c, y);
      assert false;
    }
  }

  /** A node's parent is `top` or already visited. */
  ghost predicate ParentDone(roots: seq<int>, top: nat, visited: set<nat>, y: nat)
    requires y < |roots|
  {
    roots[y] == top || roots[y] in visited
  }

  /** With nothing left in the queue, every reached node was visited. */
  lemma {:induction false} ReachedAllVisited(L: seq<seq<nat>>, roots: seq<int>, C: seq<RecipeContext>,
                                             count: (Recipe, int) -> int, top: nat, visited: set<nat>, x: nat)
    requires Forest(L, roots) && |C| == |L| && x < |L|
    requires TrimFrontier(L, roots, C, count, top, visited, [])
    requires Reached(L, roots, C, count, top, x)
    ensures x in visited
    decreases x
  {
    if roots[x] != top {
      ReachedAllVisited(L, roots, C, count, top, visited, roots[x] as nat);
    }
    assert ParentDone(roots, top, visited, x);
  }

  /** A set of handles below `n` has at most `n` elements. */
  lemma {:induction false} BoundedCard(s: set<nat>, n: nat)
    requires forall x :: x in s ==> x < n
    ensures |s| <= n
  {
    if n > 0 {
      var s' := s - {n - 1};
      BoundedCard(s', n - 1);
    }
  }

  /** The state of a trim between two visits: `visited` and the queue hold
      only nodes the trim reaches, each once, and every reached node whose
      parent is done is visited or queued. */
  ghost predicate TrimFrontier(L: seq<seq<nat>>, roots: seq<int>, C: seq<RecipeContext>, count: (Recipe, int) -> int,
                               top: nat, visited: set<nat>, queue: seq<nat>)
    requires Forest(L, roots) && |C| == |L|
  {
    && InRange(queue, 0, |L|)
    && NoRepeats(queue)
    && (forall i :: 0 <= i < |queue| ==>
          Reached(L, roots, C, count, top, queue[i]) && queue[i] !in visited && ParentDone(roots, top, visited, queue[i]))
    && (forall x :: x in visited ==> x < |L| && Reached(L, roots, C, count, top, x) && ParentDone(roots, top, visited, x))
    && (forall y :: 0 <= y < |L| && Reached(L, roots, C, count, top, y) && ParentDone(roots, top, visited, y) ==> y in visited || y in queue)
  }

  lemma {:induction false} TrimStart(L: seq<seq<nat>>, roots: seq<int>, C: seq<RecipeContext>, count: (Recipe, int) -> int, top: nat)
    requires Forest(L, roots) && |C| == |L| && top < |L|
    ensures TrimFrontier(L, roots, C, count, top, {}, L[top])
  {
    forall y | 0 <= y < |L| && Reached(L, roots, C, count, top, y) && ParentDone(roots, top, {}, y)
      ensures y in L[top]
    {
    }
  }

  /** Once the queue is empty, the visited nodes are exactly the reached ones. */
  lemma {:induction false} TrimDone(L: seq<seq<nat>>, roots: seq<int>, C: seq<RecipeContext>, count: (Recipe, int) -> int,
                 top: nat, visited: set<nat>)
    requires Forest(L, roots) && |C| == |L| && TrimFrontier(L, roots, C, count, top, visited, [])
    ensures forall x :: 0 <= x < |L| ==> (x in visited <==> Reached(L, roots, C, count, top, x))
  {
    forall x | 0 <= x < |L| && Reached(L, roots, C, count, top, x) ensures x in visited {
      ReachedAllVisited(L, roots, C, count, top, visited, x);
    }
  }

  /** After a cleared visit, a reached node whose parent is done is visited
      or queued: the cleared branch's children are not reached at all. */
  lemma {:induction false} ClearedComplete(L: seq<seq<nat>>, roots: seq<int>, C: seq<RecipeContext>, count: (Recipe, int) -> int,
                                           top: nat, visited: set<nat>, queue: seq<nat>)
    requires Forest(L, roots) && |C| == |L| && queue != []
    requires TrimFrontier(L, roots, C, count, top, visited, queue)
    requires !Survives(C, count, queue[0])
    ensures forall y :: 0 <= y < |L| && Reached(L, roots, C, count, top, y) && ParentDone(roots, top, visited + {queue[0]}, y) ==>
      y in visited + {queue[0]} || y in queue[1..]
  {
    var b := queue[0];
    var v' := visited + {b};
    ReachedBelowTop(L, roots, C, count, top, b);
    forall y | 0 <= y < |L| && Reached(L, roots, C, count, top, y) && ParentDone(roots, top, v', y)
      ensures y in v' || y in queue[1..]
    {
      if y in queue && y != b {
        var i :| 0 <= i < |queue| && queue[i] == y;
        assert queue[1..][i - 1] == y;
      }
    }
  }

  /** One visit whose branch is cleared: nothing joins the queue. */
  lemma {:induction false} TrimStepCleared(L: seq<seq<nat>>, roots: seq<int>, C: seq<RecipeContext>, count: (Recipe, int) -> int,
                                           top: nat, visited: set<nat>, queue: seq<nat>)
    requires Forest(L, roots) && |C| == |L| && queue != []
    requires TrimFrontier(L, roots, C, count, top, visited, queue)
    requires !Survives(C, count, queue[0])
    ensures TrimFrontier(L, roots, C, count, top, visited + {queue[0]}, queue[1..])
  {
    var b := queue[0];
    var q' := queue[1..];
    var v' := visited + {b};
    forall i | 0 <= i < |q'|
      ensures q'[i] < |L| && Reached(L, roots, C, count, top, q'[i]) && q'[i] !in v' && ParentDone(roots, top, v', q'[i])
    {
      assert q'[i] == queue[i + 1];
    }
    forall i, j | 0 <= i < j < |q'| ensures q'[i] != q'[j] {
      assert q'[i] == queue[i + 1] && q'[j] == queue[j + 1];
    }
    forall x | x in v' ensures x < |L| && Reached(L, roots, C, count, top, x) && ParentDone(roots, top, v', x) {
    }
    ClearedComplete(L, roots, C, count, top, visited, queue);
  }

  /** The children of a visited branch are reached, and neither visited nor
      queued yet. */
  lemma {:induction false} TrimChildrenFresh(L: seq<seq<nat>>, roots: seq<int>, C: seq<RecipeContext>, count: (Recipe, int) -> int,
                          top: nat, visited: set<nat>, queue: seq<nat>)
    requires Forest(L, roots) && |C| == |L| && queue != []
    requires TrimFrontier(L, roots, C, count, top, visited, queue)
    requires Survives(C, count, queue[0])
    ensures forall k :: 0 <= k < |L[queue[0]]| ==>
      Reached(L, roots, C, count, top, L[queue[0]][k]) && L[queue[0]][k] !in visited && L[queue[0]][k] !in queue &&
      roots[L[queue[0]][k]] == queue[0]
  {
    var b := queue[0];
    ReachedBelowTop(L, roots, C, count, top, b);
    forall k | 0 <= k < |L[b]|
      ensures Reached(L, roots, C, count, top, L[b][k]) && L[b][k] !in visited && L[b][k] !in queue
    {
      assert roots[L[b][k]] == b;
      assert L[b][k] in L[roots[L[b][k]]];
    }
  }

  /** After a surviving visit, every queued node is reached, fresh and has
      its parent done. */
  lemma {:induction false} SurvivedEntries(L: seq<seq<nat>>, roots: seq<int>, C: seq<RecipeContext>, count: (Recipe, int) -> int,
                        top: nat, visited: set<nat>, queue: seq<nat>)
    requires Forest(L, roots) && |C| == |L| && queue != []
    requires TrimFrontier(L, roots, C, count, top, visited, queue)
    requires Survives(C, count, queue[0])
    ensures forall i :: 0 <= i < |queue[1..] + L[queue[0]]| ==>
      var y := (queue[1..] + L[queue[0]])[i];
      y < |L| && Reached(L, roots, C, count, top, y) && y !in visited + {queue[0]} && ParentDone(roots, top, visited + {queue[0]}, y)
  {
    var b := queue[0];
    var kids := L[b];
    var q' := queue[1..] + kids;
    TrimChildrenFresh(L, roots, C, count, top, visited, queue);
    forall i | 0 <= i < |q'|
      ensures q'[i] < |L| && Reached(L, roots, C, count, top, q'[i]) && q'[i] !in visited + {b} && ParentDone(roots, top, visited + {b}, q'[i])
    {
      if i < |queue| - 1 {
        assert q'[i] == queue[i + 1];
      } else {
        assert q'[i] == kids[i - (|queue| - 1)];
      }
    }
  }

  /** After a surviving visit, the queue still repeats no node. */
  lemma {:induction false} SurvivedNoRepeats(L: seq<seq<nat>>, roots: seq<int>, C: seq<RecipeContext>, count: (Recipe, int) -> int,
                          top: nat, visited: set<nat>, queue: seq<nat>)
    requires Forest(L, roots) && |C| == |L| && queue != []
    requires TrimFrontier(L, roots, C, count, top, visited, queue)
    requires Survives(C, count, queue[0])
    ensures NoRepeats(queue[1..] + L[queue[0]])
  {
    var b := queue[0];
    TrimChildrenFresh(L, roots, C, count, top, visited, queue);
    assert NoRepeats(queue[1..]) by {
      forall i, j | 0 <= i < j < |queue[1..]| ensures queue[1..][i] != queue[1..][j] {
        assert queue[1..][i] == queue[i + 1] && queue[1..][j] == queue[j + 1];
      }
    }
    assert NoRepeats(L[b]);
    forall x | x in queue[1..] ensures x !in L[b] {
      var i :| 0 <= i < |queue[1..]| && queue[1..][i] == x;
      assert x == queue[i + 1];
    }
    NoRepeatsConcat(queue[1..], L[b]);
  }

  /** After a surviving visit, a reached node whose parent is done is visited
      or queued. */
  lemma {:induction false} SurvivedComplete(L: seq<seq<nat>>, roots: seq<int>, C: seq<RecipeContext>, count: (Recipe, int) -> int,
                         top: nat, visited: set<nat>, queue: seq<nat>)
    requires Forest(L, roots) && |C| == |L| && queue != []
    requires TrimFrontier(L, roots, C, count, top, visited, queue)
    requires Survives(C, count, queue[0])
    ensures forall y :: 0 <= y < |L| && Reached(L, roots, C, count, top, y) && ParentDone(roots, top, visited + {queue[0]}, y) ==>
      y in visited + {queue[0]} || y in queue[1..] + L[queue[0]]
  {
    var b := queue[0];
    var kids := L[b];
    var q' := queue[1..] + kids;
    var v' := visited + {b};
    forall y | 0 <= y < |L| && Reached(L, roots, C, count, top, y) && ParentDone(roots, top, v', y)
      ensures y in v' || y in q'
    {
      if roots[y] == b {
        assert y in L[roots[y]];
        var k :| 0 <= k < |kids| && kids[k] == y;
        assert q'[|queue| - 1 + k] == y;
      } else if y in queue && y != b {
        var i :| 0 <= i < |queue| && queue[i] == y;
        assert q'[i - 1] == y;
      }
    }
  }

  /** One visit whose branch survives: its children join the queue. */
  lemma {:induction false} TrimStepSurvived(L: seq<seq<nat>>, roots: seq<int>, C: seq<RecipeContext>, count: (Recipe, int) -> int,
                         top: nat, visited: set<nat>, queue: seq<nat>)
    requires Forest(L, roots) && |C| == |L| && queue != []
    requires TrimFrontier(L, roots, C, count, top, visited, queue)
    requires Survives(C, count, queue[0])
    ensures TrimFrontier(L, roots, C, count, top, visited + {queue[0]}, queue[1..] + L[queue[0]])
  {
    SurvivedEntries(L, roots, C, count, top, visited, queue);
    SurvivedNoRepeats(L, roots, C, count, top, visited, queue);
    SurvivedComplete(L, roots, C, count, top, visited, queue);
  }

  /** The arena during a trim: visited contexts are trimmed, visited covered
      branches have lost their children, and everything else is as before. */
  ghost predicate TrimmedSoFar(cs: seq<RecipeContext>, ls: seq<seq<nat>>, C: seq<RecipeContext>, L: seq<seq<nat>>,
                               count: (Recipe, int) -> int, visited: set<nat>)
    requires |cs| == |C| == |ls| == |L|
  {
    && (forall x {:trigger cs[x]} :: 0 <= x < |C| ==> cs[x] == if x in visited then TrimmedContext(C[x], count) else C[x])
    && (forall x {:trigger ls[x]} :: 0 <= x < |L| ==> ls[x] == if x in visited && !Survives(C, count, x) then [] else L[x])
  }

  lemma {:induction false} TrimmedSoFarStep(cs: seq<RecipeContext>, ls: seq<seq<nat>>, cs': seq<RecipeContext>, ls': seq<seq<nat>>,
                         C: seq<RecipeContext>, L: seq<seq<nat>>, count: (Recipe, int) -> int,
                         visited: set<nat>, visited': set<nat>, b: nat)
    requires |cs| == |C| == |ls| == |L| && b < |L| && b !in visited && visited' == visited + {b}
    requires TrimmedSoFar(cs, ls, C, L, count, visited)
    requires cs' == cs[b := TrimmedContext(cs[b], count)]
    requires ls' == if Survives(cs, count, b) then ls else ls[b := []]
    ensures Survives(cs, count, b) == Survives(C, count, b) && ls[b] == L[b]
    ensures TrimmedSoFar(cs', ls', C, L, count, visited')
  {
    assert cs[b] == C[b];
  }

  /** One visit of the trim, either way: the head of the queue is visited
      and, if its branch survives, its children are queued. */
  lemma {:induction false} TrimStep(L: seq<seq<nat>>, roots: seq<int>, C: seq<RecipeContext>, count: (Recipe, int) -> int,
                 top: nat, visited: set<nat>, queue: seq<nat>, visited': set<nat>, next: seq<nat>)
    requires Forest(L, roots) && |C| == |L| && queue != []
    requires TrimFrontier(L, roots, C, count, top, visited, queue)
    requires visited' == visited + {queue[0]}
    requires next == if Survives(C, count, queue[0]) then queue[1..] + L[queue[0]] else queue[1..]
    ensures TrimFrontier(L, roots, C, count, top, visited', next)
    ensures |visited| < |visited'| <= |L|
  {
    if Survives(C, count, queue[0]) {
      TrimStepSurvived(L, roots, C, count, top, visited, queue);
    } else {
      TrimStepCleared(L, roots, C, count, top, visited, queue);
    }
    BoundedCard(visited', |L|);
  }

  /** A finished trim has trimmed exactly the reached nodes and left `top`
      alone. */
  lemma {:induction false} TrimFinal(cs: seq<RecipeContext>, ls: seq<seq<nat>>, L: seq<seq<nat>>, roots: seq<int>, C: seq<RecipeContext>,
                  count: (Recipe, int) -> int, top: nat, visited: set<nat>)
    requires Forest(L, roots) && |C| == |L| == |cs| == |ls| && top < |L|
    requires TrimFrontier(L, roots, C, count, top, visited, [])
    requires TrimmedSoFar(cs, ls, C, L, count, visited)
    ensures cs[top] == C[top] && ls[top] == L[top]
    ensures forall x {:trigger cs[x]} :: 0 <= x < |cs| ==>
      cs[x] == if Reached(L, roots, C, count, top, x) then TrimmedContext(C[x], count) else C[x]
    ensures forall x {:trigger ls[x]} :: 0 <= x < |cs| ==>
      ls[x] == if Reached(L, roots, C, count, top, x) && !Survives(C, count, x) then [] else L[x]
  {
    TrimDone(L, roots, C, count, top, visited);
    if Reached(L, roots, C, count, top, top) {
      ReachedBelowTop(L, roots, C, count, top, top);
    }
  }

  // ---------------------------------------------------------------------
  // Recipe enumeration: first occurrences only
  // ---------------------------------------------------------------------

  ghost predicate Distinct<T>(s: seq<T>)
  {
    forall i, j :: 0 <= i < j < |s| ==> s[i] != s[j]
  }

  /** The elements of `s`, each kept at its first occurrence. */
  function Dedup(s: seq<Recipe>): (r: seq<Recipe>)
    ensures Distinct(r)
    ensures forall x :: x in r <==> x in s
    decreases |s|
  {
    if s == [] then []
    else
      var p := Dedup(s[..|s| - 1]);
      var last := s[|s| - 1];
      assert forall x :: x in s <==> x in s[..|s| - 1] || x == last by {
        assert s == s[..|s| - 1] + [last];
      }
      if last in p then p else p + [last]
  }

  /** Deduplicating a prefix gives a prefix of the deduplicated whole: the
      result keeps the order of first occurrences. */
  lemma {:induction false} DedupPrefix(s: seq<Recipe>, k: nat)
    requires k <= |s|
    ensures Dedup(s[..k]) <= Dedup(s)
    decreases |s|
  {
    if k < |s| {
      assert s[..|s| - 1][..k] == s[..k];
      DedupPrefix(s[..|s| - 1], k);
    } else {
      assert s[..k] == s;
    }
  }

  ghost function RecipesOf(ctxs: seq<RecipeContext>, order: seq<nat>): (r: seq<Recipe>)
    requires InRange(order, 0, |ctxs|)
    ensures |r| == |order|
  {
    seq(|order|, i requires 0 <= i < |order| => ctxs[order[i]].recipe)
  }

  lemma {:induction false} DedupSnoc(s: seq<Recipe>, x: Recipe)
    ensures Dedup(s + [x]) == if x in Dedup(s) then Dedup(s) else Dedup(s) + [x]
  {
    assert (s + [x])[..|s + [x]| - 1] == s;
  }

  lemma {:induction false} RecipesOfSnoc(ctxs: seq<RecipeContext>, order: seq<nat>, b: nat)
    requires InRange(order, 0, |ctxs|) && b < |ctxs|
    ensures InRange(order + [b], 0, |ctxs|)
    ensures RecipesOf(ctxs, order + [b]) == RecipesOf(ctxs, order) + [ctxs[b].recipe]
  {
    assert InRange(order + [b], 0, |ctxs|);
    assert RecipesOf(ctxs, order + [b])[..|order|] == RecipesOf(ctxs, order);
  }

  /** Every node of the subtree contributes its recipe. */
  /** The processing order of `n` visits exactly the nodes of its subtree. */
  lemma {:induction false} BfsMembers(leaves: seq<seq<nat>>, n: nat)
    requires Ordered(leaves) && n < |leaves|
    ensures forall x :: x in Bfs(leaves, [n]) <==> x in Subtree(leaves, n)
  {
    BfsIsPermutation(leaves, [n]);
    assert Flat(leaves, [n], 0) == Subtree(leaves, n);
    forall x ensures x in Bfs(leaves, [n]) <==> x in Subtree(leaves, n) {
      assert x in Bfs(leaves, [n]) <==> x in multiset(Bfs(leaves, [n]));
      assert x in Subtree(leaves, n) <==> x in multiset(Subtree(leaves, n));
    }
  }

  lemma {:induction false} SubtreeRecipesKept(leaves: seq<seq<nat>>, ctxs: seq<RecipeContext>, n: nat, recipes: seq<Recipe>)
    requires Ordered(leaves) && |ctxs| == |leaves| && n < |leaves|
    requires InRange(Bfs(leaves, [n]), 0, |ctxs|)
    requires recipes == Dedup(RecipesOf(ctxs, Bfs(leaves, [n])))
    ensures forall x :: x in Subtree(leaves, n) ==> x < |ctxs| && ctxs[x].recipe in recipes
  {
    var order := Bfs(leaves, [n]);
    var all := RecipesOf(ctxs, order);
    BfsMembers(leaves, n);
    forall x | x in Subtree(leaves, n) ensures x < |ctxs| && ctxs[x].recipe in recipes {
      var i :| 0 <= i < |order| && order[i] == x;
      assert all[i] == ctxs[x].recipe;
    }
  }

  /** Every recipe listed comes from a node of the subtree. */
  lemma {:induction false} SubtreeRecipesOnly(leaves: seq<seq<nat>>, ctxs: seq<RecipeContext>, n: nat, recipes: seq<Recipe>)
    requires Ordered(leaves) && |ctxs| == |leaves| && n < |leaves|
    requires InRange(Bfs(leaves, [n]), 0, |ctxs|)
    requires recipes == Dedup(RecipesOf(ctxs, Bfs(leaves, [n])))
    ensures forall r :: r in recipes ==> exists x :: x in Subtree(leaves, n) && x < |ctxs| && ctxs[x].recipe == r
  {
    var order := Bfs(leaves, [n]);
    var all := RecipesOf(ctxs, order);
    BfsMembers(leaves, n);
    forall r | r in recipes ensures exists x :: x in Subtree(leaves, n) && x < |ctxs| && ctxs[x].recipe == r {
      var i :| 0 <= i < |all| && all[i] == r;
      assert order[i] in order;
    }
  }

  // ---------------------------------------------------------------------
  // The arena
  // ---------------------------------------------------------------------

  /** The contexts of `order` as a stack pushed in that order yields them:
      last pushed first. */
  ghost function PopOrder(ctxs: seq<RecipeContext>, order: seq<nat>): seq<RecipeContext>
    requires InRange(order, 0, |ctxs|)
  {
    seq(|order|, i requires 0 <= i < |order| => ctxs[order[|order| - 1 - i]])
  }

  /** Pops the processing order `recipeStack` off as a stack, folding each
      popped node's context into the ledger. */
  method ProcessStack(contexts: seq<RecipeContext>, recipeStack: seq<nat>, groups: GroupRegistry, drops: DropHook)
    returns (l: Ledger)
    requires InRange(recipeStack, 0, |contexts|) && AllWellFormed(groups, PopOrder(contexts, recipeStack))
    ensures Sound(l) && l == Aggregate(EmptyLedger, groups, drops, PopOrder(contexts, recipeStack))
  {
    ghost var popped := PopOrder(contexts, recipeStack);
    l := EmptyLedger;
    var k := |recipeStack|;
    while k > 0
      invariant 0 <= k <= |recipeStack| && Sound(l)
      invariant AllWellFormed(groups, popped[|recipeStack| - k..])
      invariant Aggregate(l, groups, drops, popped[|recipeStack| - k..]) == Aggregate(EmptyLedger, groups, drops, popped)
    {
      k := k - 1;
      var context := contexts[recipeStack[k]];
      assert popped[|recipeStack| - k - 1..][0] == context;
      assert popped[|recipeStack| - k - 1..][1..] == popped[|recipeStack| - k..];
      ProcessContextFacts(l, groups, drops, context);
      l := ProcessContextStep(l, groups, drops, context);
    }
    assert popped[|recipeStack| - k..] == [];
  }

  class RecipeTreeArena {
    var contexts: seq<RecipeContext>
    var leaves: seq<seq<nat>>
    var roots: seq<int>

    ghost predicate Valid()
      reads this
    {
      |contexts| == |leaves| && Forest(leaves, roots)
    }

    /** A session's first node: `new OrderedRecipeTree(context)`. */
    constructor (context: RecipeContext)
      ensures Valid()
      ensures contexts == [context] && leaves == [[]] && roots == [-1]
    {
      contexts := [context];
      leaves := [[]];
      roots := [-1];
    }

    /** A further `new OrderedRecipeTree(context)` in the same session: a
        detached node without children. */
    method NewNode(context: RecipeContext) returns (node: nat)
      requires Valid()
      modifies this
      ensures Valid()
      ensures node == |old(contexts)|
      ensures contexts == old(contexts) + [context]
      ensures leaves == old(leaves) + [[]]
      ensures roots == old(roots) + [-1]
    {
      node := |contexts|;
      contexts := contexts + [context];
      leaves := leaves + [[]];
      roots := roots + [-1];
    }

    ghost predicate Detached(child: nat)
      reads this
    {
      forall n :: 0 <= n < |leaves| ==> child !in leaves[n]
    }

    /** Attaches `child` as the last child of `node` and makes `node` its Root. */
    method Add(node: nat, child: nat)
      requires Valid() && node < child < |contexts| && Detached(child)
      modifies this
      ensures Valid()
      ensures contexts == old(contexts)
      ensures leaves == old(leaves)[node := old(leaves[node]) + [child]]
      ensures roots == old(roots)[child := node]
    {
      leaves := leaves[node := leaves[node] + [child]];
      roots := roots[child := node];
    }

    /** Attaches each of `children`, in order, as the last child of `node`. */
    method AddRange(node: nat, children: seq<nat>)
      requires Valid() && node < |contexts| && InRange(children, node + 1, |contexts|) && NoRepeats(children)
      requires forall i :: 0 <= i < |children| ==> Detached(children[i])
      modifies this
      ensures Valid()
      ensures contexts == old(contexts)
      ensures leaves == old(leaves)[node := old(leaves[node]) + children]
      ensures forall c :: 0 <= c < |roots| ==> roots[c] == if c in children then node else old(roots[c])
      ensures |roots| == |old(roots)|
    {
      var i := 0;
      assert children[..0] == [] && old(leaves[node]) + [] == old(leaves[node]);
      assert old(leaves)[node := old(leaves[node]) + children[..0]] == leaves;
      while i < |children|
        invariant 0 <= i <= |children|
        invariant Valid()
        invariant contexts == old(contexts)
        invariant leaves == old(leaves)[node := old(leaves[node]) + children[..i]]
        invariant |roots| == |old(roots)|
        invariant forall c :: 0 <= c < |roots| ==> roots[c] == if c in children[..i] then node else old(roots[c])
      {
        var c := children[i];
        forall n | 0 <= n < |leaves| ensures c !in leaves[n] {
          if n == node {
            assert c !in old(leaves)[node];
            assert forall k :: 0 <= k < i ==> children[k] != c;
          } else {
            assert leaves[n] == old(leaves)[n];
          }
        }
        Add(node, c);
        assert children[..i + 1] == children[..i] + [c];
        assert old(leaves[node]) + children[..i + 1] == (old(leaves[node]) + children[..i]) + [c];
        i := i + 1;
      }
      assert children[..i] == children;
    }

    /** Sets the node's amount to craft to zero and drops its children. */
    method Clear(node: nat)
      requires Valid() && node < |contexts|
      modifies this
      ensures Valid()
      ensures contexts == old(contexts)[node := old(contexts[node]).(amountToCraft := 0)]
      ensures leaves == old(leaves)[node := []]
      ensures roots == old(roots)
    {
      contexts := contexts[node := contexts[node].(amountToCraft := 0)];
      leaves := leaves[node := []];
    }

    /** One visit of the trim: subtracts the on-hand count from the branch's
        amount to craft and clears the branch when that covers it. */
    method TrimVisit(branch: nat, count: (Recipe, int) -> int) returns (survived: bool)
      requires Valid() && branch < |contexts|
      modifies this
      ensures Valid() && roots == old(roots)
      ensures survived == Survives(old(contexts), count, branch)
      ensures contexts == old(contexts)[branch := TrimmedContext(old(contexts[branch]), count)]
      ensures leaves == if survived then old(leaves) else old(leaves)[branch := []]
    {
      var recipe := contexts[branch].recipe;
      var result := recipe.createItem.itemType;
      contexts := contexts[branch := contexts[branch].(amountToCraft := contexts[branch].amountToCraft - count(recipe, result))];
      survived := contexts[branch].amountToCraft > 0;
      if !survived {
        Clear(branch);
      }
    }

    /** Trims, top-down and breadth-first from the children of `top`, every
        branch whose amount to craft is covered by `count`: a covered branch is
        cleared and its children are not visited. */
    method TrimBranches(top: nat, count: (Recipe, int) -> int)
      requires Valid() && top < |contexts|
      modifies this
      ensures Valid()
      ensures roots == old(roots) && |contexts| == |old(contexts)|
      ensures contexts[top] == old(contexts[top]) && leaves[top] == old(leaves[top])
      ensures forall x {:trigger contexts[x]} :: 0 <= x < |contexts| ==>
        contexts[x] == if Reached(old(leaves), roots, old(contexts), count, top, x)
                       then TrimmedContext(old(contexts[x]), count) else old(contexts[x])
      ensures forall x {:trigger leaves[x]} :: 0 <= x < |contexts| ==>
        leaves[x] == if Reached(old(leaves), roots, old(contexts), count, top, x) && !Survives(old(contexts), count, x)
                     then [] else old(leaves[x])
    {
      ghost var L, C, R := leaves, contexts, roots;
      ghost var visited: set<nat> := {};
      var queue := leaves[top];
      TrimStart(L, R, C, count, top);
      while queue != []
        invariant Valid() && roots == R && |contexts| == |C| && |leaves| == |L|
        invariant TrimFrontier(L, R, C, count, top, visited, queue)
        invariant TrimmedSoFar(contexts, leaves, C, L, count, visited)
        invariant |visited| <= |L|
        decreases |L| - |visited|
      {
        var branch := queue[0];
        ghost var visited': set<nat> := visited + {branch};
        ghost var cs0, ls0, q0 := contexts, leaves, queue;
        var survived := TrimVisit(branch, count);
        TrimmedSoFarStep(cs0, ls0, contexts, leaves, C, L, count, visited, visited', branch);
        if survived {
          queue := queue[1..] + leaves[branch];
        } else {
          queue := queue[1..];
        }
        TrimStep(L, R, C, count, top, visited, q0, visited', queue);
        visited := visited';
      }
      TrimFinal(contexts, leaves, L, R, C, count, top, visited);
    }

    /** Every recipe of the subtree at `node`, each once, in the order of its
        first breadth-first occurrence. */
    method GetAllRecipes(node: nat) returns (recipes: seq<Recipe>)
      requires Valid() && node < |contexts|
      ensures InRange(Bfs(leaves, [node]), 0, |contexts|)
      ensures recipes == Dedup(RecipesOf(contexts, Bfs(leaves, [node])))
      ensures Distinct(recipes)
      ensures forall x :: x in Subtree(leaves, node) ==> x < |contexts| && contexts[x].recipe in recipes
      ensures forall r :: r in recipes ==> exists x :: x in Subtree(leaves, node) && x < |contexts| && contexts[x].recipe == r
    {
      var ls, cs := leaves, contexts;
      ghost var order: seq<nat> := [];
      var usedRecipes: set<Recipe> := {};
      recipes := [];
      var treeQueue := [node];
      while treeQueue != []
        invariant InRange(treeQueue, 0, |ls|) && InRange(order, 0, |ls|)
        invariant order + Bfs(ls, treeQueue) == Bfs(ls, [node])
        invariant recipes == Dedup(RecipesOf(cs, order))
        invariant forall r :: r in usedRecipes <==> r in recipes
        decreases |Bfs(ls, treeQueue)|
      {
        var branch := treeQueue[0];
        var next := treeQueue[1..] + ls[branch];
        BfsHead(ls, treeQueue, order);
        var recipe := cs[branch].recipe;
        RecipesOfSnoc(cs, order, branch);
        DedupSnoc(RecipesOf(cs, order), recipe);
        if recipe !in usedRecipes {
          usedRecipes := usedRecipes + {recipe};
          recipes := recipes + [recipe];
        }
        order := order + [branch];
        treeQueue := next;
      }
      assert order == Bfs(ls, [node]);
      SubtreeRecipesKept(ls, cs, node, recipes);
      SubtreeRecipesOnly(ls, cs, node, recipes);
    }

    /** The stack of contexts (as node handles, bottom first) in breadth-first
        order from `node`. */
    method GetProcessingOrder(node: nat) returns (recipeStack: seq<nat>)
      requires Valid() && node < |contexts|
      ensures recipeStack == Bfs(leaves, [node])
      ensures |recipeStack| == |Subtree(leaves, node)|
      ensures multiset(recipeStack) == multiset(Subtree(leaves, node))
      ensures NoRepeats(recipeStack)
      ensures recipeStack[0] == node
      ensures InRange(recipeStack, 0, |leaves|)
      ensures forall i, j :: 0 <= i < |recipeStack| && 0 <= j < |recipeStack| ==>
        (recipeStack[j] in leaves[recipeStack[i]] ==> i < j)
    {
      var ls := leaves;
      assert Ordered(ls);
      recipeStack := [];
      var treeQueue := [node];
      while treeQueue != []
        invariant InRange(treeQueue, 0, |ls|)
        invariant recipeStack + Bfs(ls, treeQueue) == Bfs(ls, [node])
        decreases |Bfs(ls, treeQueue)|
      {
        var branch := treeQueue[0];
        var next := treeQueue[1..] + ls[branch];
        BfsHead(ls, treeQueue, recipeStack);
        recipeStack := recipeStack + [branch];
        treeQueue := next;
      }
      assert recipeStack == Bfs(ls, [node]);
      ProcessingOrderFacts(ls, roots, node);
    }
  
    /** The materials and the leftover results of crafting the subtree at
        `node`: the processing order is popped as a stack, so every child
        is processed before its parent. */
    method GetRequiredMaterials(node: nat, groups: GroupRegistry, drops: DropHook)
      returns (materials: seq<Material>, excessResults: seq<ItemInfo>)
      requires Valid() && node < |contexts|
      requires forall x :: 0 <= x < |contexts| ==> WellFormedRecipe(groups, contexts[x].recipe)
      ensures InRange(Bfs(leaves, [node]), 0, |contexts|)
      ensures AllWellFormed(groups, PopOrder(contexts, Bfs(leaves, [node])))
      ensures var l := Aggregate(EmptyLedger, groups, drops, PopOrder(contexts, Bfs(leaves, [node])));
        materials == l.materials && excessResults == l.excess
      ensures forall i, j :: 0 <= i < j < |materials| ==> materials[i].key != materials[j].key
      ensures forall i :: 0 <= i < |materials| ==> materials[i].stack >= 0
      ensures forall i, j :: 0 <= i < j < |excessResults| ==> excessResults[i].itemType != excessResults[j].itemType
      ensures forall i :: 0 <= i < |excessResults| ==> excessResults[i].stack >= 0
    {
      var recipeStack := GetProcessingOrder(node);
      assert AllWellFormed(groups, PopOrder(contexts, recipeStack));
      var l := ProcessStack(contexts, recipeStack, groups, drops);
      OneEntryPerKey(l);
      materials, excessResults := l.materials, l.excess;
    }
  }
}
