/**
  The bounded priority queue of predicates/queue/bounded_pqueue.hpp: a binary tree of counters over one
  FIFO bin per priority.
*/
module BoundedPqueue {
  import opened Common

  type NodeId = nat

  /** `queue_tree_node` without its bin; a node without a right child is a leaf. */
  datatype Node = Node(parent: Option<NodeId>, left: Option<NodeId>, right: Option<NodeId>, counter: int)

  type Tree = map<NodeId, Node>

  /** The priorities of the leaves below a node. */
  datatype Span = Span(lo: nat, hi: nat)

  type Spans = map<NodeId, Span>

  // ---------------------------------------------------------------- utils.hpp

  /** `next_power2`: the least power of two that is not smaller than `val`. */
  method NextPower2(val: nat) returns (ret: nat, ghost n: nat)
    ensures ret == Pow2(n) && ret >= val && (n > 0 ==> Pow2(n - 1) < val)
  {
    ret, n := 1, 0;
    while ret < val
      invariant ret == Pow2(n) && (n > 0 ==> Pow2(n - 1) < val)
      decreases val - ret
    {
      ret, n := 2 * ret, n + 1;
    }
  }

  /** `upper_log2` of a positive number: the least exponent whose power is not smaller. */
  method UpperLog2(n: nat) returns (i: nat)
    requires n > 0
    ensures Pow2(i) >= n && (i > 0 ==> Pow2(i - 1) < n)
  {
    i := 0;
    var m := 1;
    while true
      invariant m == Pow2(i) && (i > 0 ==> Pow2(i - 1) < n)
      decreases n - m
    {
      if m >= n {
        return;
      }
      m, i := 2 * m, i + 1;
    }
  }

  // ---------------------------------------------------------------- counting items

  /** The number of items with priorities from `lo` up to but not including `hi`. */
  function Sum<T>(bins: seq<seq<T>>, lo: nat, hi: nat): nat
    requires hi <= |bins|
    decreases hi - lo
  {
    if lo >= hi then 0 else |bins[lo]| + Sum(bins, lo + 1, hi)
  }

  lemma {:induction false} SumSplit<T>(bins: seq<seq<T>>, lo: nat, mid: nat, hi: nat)
    requires lo <= mid <= hi <= |bins|
    ensures Sum(bins, lo, hi) == Sum(bins, lo, mid) + Sum(bins, mid, hi)
    decreases mid - lo
  {
    if lo < mid {
      SumSplit(bins, lo + 1, mid, hi);
    }
  }

  lemma {:induction false} SumUpdate<T>(bins: seq<seq<T>>, i: nat, bin: seq<T>, lo: nat, hi: nat)
    requires i < |bins| && hi <= |bins|
    ensures Sum(bins[i := bin], lo, hi) == Sum(bins, lo, hi) + if lo <= i < hi then |bin| - |bins[i]| else 0
    decreases hi - lo
  {
    if lo < hi {
      SumUpdate(bins, i, bin, lo + 1, hi);
    }
  }

  lemma {:induction false} SumZero<T>(bins: seq<seq<T>>, lo: nat, hi: nat, i: nat)
    requires lo <= i < hi <= |bins| && Sum(bins, lo, hi) == 0
    ensures bins[i] == []
    decreases i - lo
  {
    if lo < i {
      SumZero(bins, lo + 1, hi, i);
    }
  }

  lemma {:induction false} SumNone<T>(bins: seq<seq<T>>, lo: nat, hi: nat)
    requires hi <= |bins| && forall i :: lo <= i < hi ==> bins[i] == []
    ensures Sum(bins, lo, hi) == 0
    decreases hi - lo
  {
    if lo < hi {
      SumNone(bins, lo + 1, hi);
    }
  }

  // ---------------------------------------------------------------- the shape of the tree

  ghost predicate IsLeaf(tree: Tree, spans: Spans, leaves: seq<NodeId>, n: NodeId)
    requires n in tree && n in spans
  {
    && tree[n].right.None? && tree[n].left.None?
    && spans[n].hi == spans[n].lo + 1 && spans[n].lo < |leaves| && leaves[spans[n].lo] == n
  }

  ghost predicate IsChild(tree: Tree, spans: Spans, n: NodeId, c: Option<NodeId>, span: Span) {
    c.Some? && c.value in tree && c.value in spans && spans[c.value] == span && tree[c.value].parent == Some(n)
  }

  /** Where the leaves below the two children of a node meet. */
  ghost function Mid(tree: Tree, spans: Spans, n: NodeId): nat
    requires n in tree
  {
    if tree[n].left.Some? && tree[n].left.value in spans then spans[tree[n].left.value].hi else 0
  }

  ghost predicate IsInner(tree: Tree, spans: Spans, n: NodeId)
    requires n in tree && n in spans
  {
    var mid := Mid(tree, spans, n);
    && spans[n].lo < mid < spans[n].hi && tree[n].left != tree[n].right
    && IsChild(tree, spans, n, tree[n].left, Span(spans[n].lo, mid))
    && IsChild(tree, spans, n, tree[n].right, Span(mid, spans[n].hi))
  }

  ghost predicate DownOk(tree: Tree, spans: Spans, leaves: seq<NodeId>, n: NodeId)
    requires n in tree && n in spans
  {
    if tree[n].right.None? then IsLeaf(tree, spans, leaves, n) else IsInner(tree, spans, n)
  }

  /** A node other than the top is a child of its parent. */
  ghost predicate UpOk(tree: Tree, top: NodeId, n: NodeId)
    requires n in tree
  {
    n == top ||
    (tree[n].parent.Some? && tree[n].parent.value in tree
     && tree[tree[n].parent.value].right.Some?
     && (tree[tree[n].parent.value].left == Some(n) || tree[tree[n].parent.value].right == Some(n)))
  }

  ghost predicate NodeOk(tree: Tree, spans: Spans, leaves: seq<NodeId>, top: NodeId, n: NodeId) {
    n in tree && n in spans && DownOk(tree, spans, leaves, n) && UpOk(tree, top, n)
  }

  /** Leaf `i` is at position `i`. */
  ghost predicate LeafAt(tree: Tree, spans: Spans, leaves: seq<NodeId>, i: nat) {
    i < |leaves| && leaves[i] in tree && leaves[i] in spans && spans[leaves[i]] == Span(i, i + 1) && tree[leaves[i]].right.None?
  }

  /** The nodes from `first` on are a tree with the given top over the given priorities. */
  ghost predicate TreeOk(tree: Tree, spans: Spans, leaves: seq<NodeId>, first: NodeId, top: NodeId, span: Span) {
    && spans.Keys == tree.Keys && top in tree && first <= top && spans[top] == span && span.lo < span.hi <= |leaves|
    && tree[top].parent.None?
    && (forall n {:trigger NodeOk(tree, spans, leaves, top, n)} :: n in tree && n >= first ==>
          NodeOk(tree, spans, leaves, top, n) && span.lo <= spans[n].lo < spans[n].hi <= span.hi)
    && (forall i {:trigger LeafAt(tree, spans, leaves, i)} :: span.lo <= i < span.hi ==> LeafAt(tree, spans, leaves, i))
  }

  /** An inner node of the tree `shape` counts, in `tree`, the items below its left child. */
  ghost predicate Counted<T>(shape: Tree, spans: Spans, tree: Tree, bins: seq<seq<T>>, n: NodeId) {
    n in shape && n in spans && n in tree && (shape[n].right.Some? ==>
      spans[n].lo <= Mid(shape, spans, n) <= |bins| && tree[n].counter == Sum(bins, spans[n].lo, Mid(shape, spans, n)))
  }

  ghost predicate AllCounted<T>(tree: Tree, spans: Spans, bins: seq<seq<T>>) {
    forall n {:trigger Counted(tree, spans, tree, bins, n)} :: n in tree ==> Counted(tree, spans, tree, bins, n)
  }

  /** Only counters differ. */
  ghost predicate SameShape(tree: Tree, tree': Tree) {
    && tree'.Keys == tree.Keys
    && forall n :: n in tree ==> tree'[n] == tree[n].(counter := tree'[n].counter)
  }

  lemma ShapeKept(tree: Tree, spans: Spans, leaves: seq<NodeId>, first: NodeId, top: NodeId, span: Span, tree': Tree)
    requires TreeOk(tree, spans, leaves, first, top, span) && SameShape(tree, tree')
    ensures TreeOk(tree', spans, leaves, first, top, span)
  {
    forall n | n in tree' && n >= first
      ensures NodeOk(tree', spans, leaves, top, n) && span.lo <= spans[n].lo < spans[n].hi <= span.hi
    {
      assert NodeOk(tree, spans, leaves, top, n);
    }
    forall i | span.lo <= i < span.hi ensures LeafAt(tree', spans, leaves, i) {
      assert LeafAt(tree, spans, leaves, i);
    }
  }

  // ---------------------------------------------------------------- the way to a leaf

  ghost predicate Covers(spans: Spans, n: NodeId, prio: nat) {
    n in spans && spans[n].lo <= prio < spans[n].hi
  }

  /** The child of `n` towards the leaf of a priority. */
  ghost function Towards(tree: Tree, spans: Spans, n: NodeId, prio: nat): Option<NodeId>
    requires n in tree
  {
    if prio < Mid(tree, spans, n) then tree[n].left else tree[n].right
  }

  ghost predicate TrailStep(tree: Tree, spans: Spans, trail: seq<NodeId>, prio: nat, i: nat)
    requires i < |trail|
  {
    && trail[i] in tree && Covers(spans, trail[i], prio)
    && if i + 1 < |trail| then tree[trail[i]].right.Some? && Towards(tree, spans, trail[i], prio) == Some(trail[i + 1])
       else tree[trail[i]].right.None?
  }

  /** The nodes from `top` down to the leaf of `prio`. */
  ghost predicate IsTrail(tree: Tree, spans: Spans, top: NodeId, trail: seq<NodeId>, prio: nat) {
    && trail != [] && trail[0] == top
    && forall i {:trigger TrailStep(tree, spans, trail, prio, i)} :: 0 <= i < |trail| ==> TrailStep(tree, spans, trail, prio, i)
  }

  lemma {:induction false} MakeTrail(tree: Tree, spans: Spans, leaves: seq<NodeId>, first: NodeId, top: NodeId,
      span: Span, n: NodeId, prio: nat)
    returns (trail: seq<NodeId>)
    requires TreeOk(tree, spans, leaves, first, top, span) && n in tree && n >= first && Covers(spans, n, prio)
    requires first == 0
    ensures IsTrail(tree, spans, n, trail, prio)
    decreases spans[n].hi - spans[n].lo
  {
    assert NodeOk(tree, spans, leaves, top, n);
    if tree[n].right.None? {
      trail := [n];
      assert TrailStep(tree, spans, trail, prio, 0);
    } else {
      var c := Towards(tree, spans, n, prio).value;
      var rest := MakeTrail(tree, spans, leaves, first, top, span, c, prio);
      trail := [n] + rest;
      forall i | 0 <= i < |trail| ensures TrailStep(tree, spans, trail, prio, i) {
        if i > 0 {
          assert TrailStep(tree, spans, rest, prio, i - 1);
        }
      }
    }
  }

  /** Spans get smaller on the way down, so no node is met twice. */
  lemma {:induction false} TrailShrinks(tree: Tree, spans: Spans, leaves: seq<NodeId>, top: NodeId, span: Span,
      trail: seq<NodeId>, prio: nat, i: nat, j: nat)
    requires TreeOk(tree, spans, leaves, 0, top, span) && IsTrail(tree, spans, top, trail, prio) && i < j < |trail|
    ensures trail[i] in spans && trail[j] in spans
    ensures spans[trail[j]].hi - spans[trail[j]].lo < spans[trail[i]].hi - spans[trail[i]].lo
    decreases j
  {
    assert TrailStep(tree, spans, trail, prio, j - 1) && TrailStep(tree, spans, trail, prio, j);
    assert NodeOk(tree, spans, leaves, top, trail[j - 1]);
    if i < j - 1 {
      TrailShrinks(tree, spans, leaves, top, span, trail, prio, i, j - 1);
    }
  }

  /** Every node over the leaf of `prio` is on the way to it. */
  lemma {:induction false} OnTrail(tree: Tree, spans: Spans, leaves: seq<NodeId>, top: NodeId, span: Span,
      trail: seq<NodeId>, prio: nat, n: NodeId)
    requires TreeOk(tree, spans, leaves, 0, top, span) && IsTrail(tree, spans, top, trail, prio)
    requires n in tree && Covers(spans, n, prio)
    ensures n in trail
    decreases span.hi - span.lo - (spans[n].hi - spans[n].lo)
  {
    assert NodeOk(tree, spans, leaves, top, n);
    if n != top {
      var p := tree[n].parent.value;
      assert NodeOk(tree, spans, leaves, top, p);
      OnTrail(tree, spans, leaves, top, span, trail, prio, p);
      var i :| 0 <= i < |trail| && trail[i] == p;
      assert TrailStep(tree, spans, trail, prio, i);
      assert trail[i + 1] == n;
    }
  }

  /** The way ends at the leaf of the priority; each step is from a parent to its child. */
  lemma TrailEnd(tree: Tree, spans: Spans, leaves: seq<NodeId>, top: NodeId, span: Span, trail: seq<NodeId>, prio: nat)
    requires TreeOk(tree, spans, leaves, 0, top, span) && IsTrail(tree, spans, top, trail, prio)
    ensures prio < |leaves| && trail[|trail| - 1] == leaves[prio]
  {
    var n := trail[|trail| - 1];
    assert TrailStep(tree, spans, trail, prio, |trail| - 1);
    assert NodeOk(tree, spans, leaves, top, n);
  }

  lemma TrailParent(tree: Tree, spans: Spans, leaves: seq<NodeId>, top: NodeId, span: Span, trail: seq<NodeId>,
      prio: nat, k: nat)
    requires TreeOk(tree, spans, leaves, 0, top, span) && IsTrail(tree, spans, top, trail, prio) && 0 < k < |trail|
    ensures trail[k] in tree && trail[k - 1] in tree && tree[trail[k]].parent == Some(trail[k - 1]) && trail[k] != top
    ensures tree[trail[k - 1]].right.Some?
    ensures tree[trail[k - 1]].left == Some(trail[k]) <==> prio < Mid(tree, spans, trail[k - 1])
    ensures trail[k - 1] in spans && spans[trail[k - 1]].lo <= prio < spans[trail[k - 1]].hi
    ensures spans[trail[k - 1]].lo < Mid(tree, spans, trail[k - 1]) < spans[trail[k - 1]].hi <= |leaves|
  {
    assert TrailStep(tree, spans, trail, prio, k - 1) && TrailStep(tree, spans, trail, prio, k);
    assert NodeOk(tree, spans, leaves, top, trail[k - 1]) && NodeOk(tree, spans, leaves, top, top);
    TrailShrinks(tree, spans, leaves, top, span, trail, prio, 0, k);
  }

  /** The nodes of the way above step `k` count by the one list of bins, all others by the other. */
  ghost predicate HalfCounted<T>(shape: Tree, spans: Spans, tree: Tree, trail: seq<NodeId>, k: nat, above: seq<seq<T>>,
      others: seq<seq<T>>)
    requires k <= |trail|
  {
    forall n {:trigger Counted(shape, spans, tree, above, n)} {:trigger Counted(shape, spans, tree, others, n)} ::
      n in shape ==> Counted(shape, spans, tree, if n in trail[..k] then above else others, n)
  }

  lemma NotAbove(tree: Tree, spans: Spans, leaves: seq<NodeId>, top: NodeId, span: Span, trail: seq<NodeId>, prio: nat,
      k: nat)
    requires TreeOk(tree, spans, leaves, 0, top, span) && IsTrail(tree, spans, top, trail, prio) && k < |trail|
    ensures trail[k] !in trail[..k]
    ensures forall n :: n in trail[..k + 1] <==> n == trail[k] || n in trail[..k]
  {
    forall i | 0 <= i < k ensures trail[i] != trail[k] {
      TrailShrinks(tree, spans, leaves, top, span, trail, prio, i, k);
    }
    assert trail[..k + 1] == trail[..k] + [trail[k]];
  }

  /** One bin changes size. */
  ghost predicate Changed<T>(bins: seq<seq<T>>, bins': seq<seq<T>>, prio: nat, delta: int) {
    prio < |bins| && |bins'| == |bins| && bins' == bins[prio := bins'[prio]] && |bins'[prio]| == |bins[prio]| + delta
  }

  /** A node that does not cover the priority counts as before. */
  lemma CountedElsewhere<T>(shape: Tree, spans: Spans, leaves: seq<NodeId>, top: NodeId, span: Span, tree: Tree,
      bins: seq<seq<T>>, bins': seq<seq<T>>, prio: nat, delta: int, n: NodeId)
    requires TreeOk(shape, spans, leaves, 0, top, span) && Changed(bins, bins', prio, delta) && n in shape
    requires !Covers(spans, n, prio) || shape[n].right.None?
    ensures Counted(shape, spans, tree, bins, n) <==> Counted(shape, spans, tree, bins', n)
  {
    assert NodeOk(shape, spans, leaves, top, n);
    if shape[n].right.Some? && Mid(shape, spans, n) <= |bins| {
      SumUpdate(bins, prio, bins'[prio], spans[n].lo, Mid(shape, spans, n));
    }
  }

  /** The counter of a node on the way, before and after. */
  lemma CountedOnTrail<T>(shape: Tree, spans: Spans, bins: seq<seq<T>>, bins': seq<seq<T>>, prio: nat, delta: int,
      n: NodeId)
    requires Changed(bins, bins', prio, delta) && n in shape && n in spans && spans[n].lo <= prio
    requires spans[n].lo <= Mid(shape, spans, n) <= |bins|
    ensures Sum(bins', spans[n].lo, Mid(shape, spans, n))
            == Sum(bins, spans[n].lo, Mid(shape, spans, n)) + if prio < Mid(shape, spans, n) then delta else 0
  {
    SumUpdate(bins, prio, bins'[prio], spans[n].lo, Mid(shape, spans, n));
  }

  function Recount(tree: Tree, n: NodeId, delta: int): Tree
    requires n in tree
  {
    tree[n := tree[n].(counter := tree[n].counter + delta)]
  }

  lemma ClimbStart<T>(tree: Tree, spans: Spans, leaves: seq<NodeId>, top: NodeId, span: Span, trail: seq<NodeId>,
      prio: nat, bins: seq<seq<T>>, bins': seq<seq<T>>, delta: int)
    requires TreeOk(tree, spans, leaves, 0, top, span) && IsTrail(tree, spans, top, trail, prio)
    requires AllCounted(tree, spans, bins) && Changed(bins, bins', prio, delta)
    ensures HalfCounted(tree, spans, tree, trail, |trail| - 1, bins, bins')
  {
    var k := |trail| - 1;
    assert trail[..k + 1] == trail;
    NotAbove(tree, spans, leaves, top, span, trail, prio, k);
    assert TrailStep(tree, spans, trail, prio, k);
    forall n | n in tree ensures Counted(tree, spans, tree, if n in trail[..k] then bins else bins', n) {
      assert Counted(tree, spans, tree, bins, n);
      if n !in trail[..k] {
        if Covers(spans, n, prio) {
          OnTrail(tree, spans, leaves, top, span, trail, prio, n);
        }
        CountedElsewhere(tree, spans, leaves, top, span, tree, bins, bins', prio, delta, n);
      }
    }
  }

  /** One round of a climb: the parent's counter follows if we come from its left. */
  lemma ClimbStep<T>(shape: Tree, spans: Spans, leaves: seq<NodeId>, top: NodeId, span: Span, tree: Tree,
      trail: seq<NodeId>, prio: nat, k: nat, bins: seq<seq<T>>, bins': seq<seq<T>>, delta: int)
    requires TreeOk(shape, spans, leaves, 0, top, span) && SameShape(shape, tree)
             && IsTrail(shape, spans, top, trail, prio)
    requires 0 < k < |trail| && |bins| == |leaves| && Changed(bins, bins', prio, delta)
    requires HalfCounted(shape, spans, tree, trail, k, bins, bins')
    ensures trail[k - 1] in shape && shape[trail[k - 1]].right.Some?
    ensures var p := trail[k - 1];
            var tree' := if shape[p].left == Some(trail[k]) then Recount(tree, p, delta) else tree;
            SameShape(shape, tree') && HalfCounted(shape, spans, tree', trail, k - 1, bins, bins')
  {
    var p := trail[k - 1];
    TrailParent(shape, spans, leaves, top, span, trail, prio, k);
    NotAbove(shape, spans, leaves, top, span, trail, prio, k - 1);
    CountedOnTrail(shape, spans, bins, bins', prio, delta, p);
    var tree' := if shape[p].left == Some(trail[k]) then Recount(tree, p, delta) else tree;
    assert Counted(shape, spans, tree, bins, p) by {
      assert p in trail[..k];
    }
    forall n | n in shape ensures Counted(shape, spans, tree', if n in trail[..k - 1] then bins else bins', n) {
      assert Counted(shape, spans, tree, if n in trail[..k] then bins else bins', n);
    }
  }

  lemma AllRecounted<T>(shape: Tree, spans: Spans, leaves: seq<NodeId>, top: NodeId, span: Span, tree: Tree,
      bins: seq<seq<T>>)
    requires TreeOk(shape, spans, leaves, 0, top, span) && SameShape(shape, tree)
    requires forall n {:trigger Counted(shape, spans, tree, bins, n)} :: n in shape ==>
               Counted(shape, spans, tree, bins, n)
    ensures TreeOk(tree, spans, leaves, 0, top, span) && AllCounted(tree, spans, bins)
  {
    ShapeKept(shape, spans, leaves, 0, top, span, tree);
    forall n | n in tree ensures Counted(tree, spans, tree, bins, n) {
      assert Counted(shape, spans, tree, bins, n);
    }
  }

  lemma ClimbEnd<T>(shape: Tree, spans: Spans, leaves: seq<NodeId>, top: NodeId, span: Span, tree: Tree,
      trail: seq<NodeId>, bins: seq<seq<T>>, bins': seq<seq<T>>)
    requires TreeOk(shape, spans, leaves, 0, top, span) && SameShape(shape, tree)
    requires HalfCounted(shape, spans, tree, trail, 0, bins, bins')
    ensures TreeOk(tree, spans, leaves, 0, top, span) && AllCounted(tree, spans, bins')
  {
    forall n | n in shape ensures Counted(shape, spans, tree, bins', n) {
      assert Counted(shape, spans, tree, if n in trail[..0] then bins else bins', n);
    }
    AllRecounted(shape, spans, leaves, top, span, tree, bins');
  }

  /** `prio` is the lowest priority with an item. */
  ghost predicate Lowest<T>(bins: seq<seq<T>>, prio: nat) {
    prio < |bins| && bins[prio] != [] && forall i :: 0 <= i < prio ==> bins[i] == []
  }

  lemma {:induction false} LowestExists<T>(bins: seq<seq<T>>, lo: nat) returns (prio: nat)
    requires lo <= |bins| && Sum(bins, lo, |bins|) > 0 && forall i :: 0 <= i < lo ==> bins[i] == []
    ensures Lowest(bins, prio)
    decreases |bins| - lo
  {
    if bins[lo] != [] {
      prio := lo;
    } else {
      prio := LowestExists(bins, lo + 1);
    }
  }

  /** On the way to the lowest priority the counter says which way to go. */
  lemma CounterPoints<T>(shape: Tree, spans: Spans, leaves: seq<NodeId>, top: NodeId, span: Span, tree: Tree,
      trail: seq<NodeId>, prio: nat, k: nat, bins: seq<seq<T>>)
    requires TreeOk(shape, spans, leaves, 0, top, span) && IsTrail(shape, spans, top, trail, prio) && k + 1 < |trail|
    requires |bins| == |leaves| && Lowest(bins, prio) && trail[k] in shape
             && Counted(shape, spans, tree, bins, trail[k])
    ensures shape[trail[k]].right.Some? && trail[k + 1] in shape
    ensures tree[trail[k]].counter > 0 <==> shape[trail[k]].left == Some(trail[k + 1])
    ensures tree[trail[k]].counter <= 0 ==> shape[trail[k]].right == Some(trail[k + 1])
  {
    var n := trail[k];
    TrailParent(shape, spans, leaves, top, span, trail, prio, k + 1);
    assert TrailStep(shape, spans, trail, prio, k);
    var mid := Mid(shape, spans, n);
    if prio < mid {
      if Sum(bins, spans[n].lo, mid) == 0 {
        SumZero(bins, spans[n].lo, mid, prio);
      }
    } else {
      SumNone(bins, spans[n].lo, mid);
    }
  }

  /** One round of `pop` on its way down. */
  lemma SinkStep<T>(shape: Tree, spans: Spans, leaves: seq<NodeId>, top: NodeId, span: Span, tree: Tree,
      trail: seq<NodeId>, prio: nat, k: nat, bins: seq<seq<T>>, bins': seq<seq<T>>)
    requires TreeOk(shape, spans, leaves, 0, top, span) && SameShape(shape, tree)
             && IsTrail(shape, spans, top, trail, prio)
    requires k + 1 < |trail| && |bins| == |leaves| && Changed(bins, bins', prio, -1) && Lowest(bins, prio)
    requires HalfCounted(shape, spans, tree, trail, k, bins', bins) && trail[k] in shape
    ensures shape[trail[k]].right.Some? && trail[k + 1] in shape
    ensures tree[trail[k]].counter > 0 ==> shape[trail[k]].left == Some(trail[k + 1])
    ensures tree[trail[k]].counter <= 0 ==> shape[trail[k]].right == Some(trail[k + 1])
    ensures var tree' := if tree[trail[k]].counter > 0 then Recount(tree, trail[k], -1) else tree;
            SameShape(shape, tree') && HalfCounted(shape, spans, tree', trail, k + 1, bins', bins)
  {
    var n := trail[k];
    NotAbove(shape, spans, leaves, top, span, trail, prio, k);
    assert Counted(shape, spans, tree, bins, n);
    CounterPoints(shape, spans, leaves, top, span, tree, trail, prio, k, bins);
    TrailParent(shape, spans, leaves, top, span, trail, prio, k + 1);
    CountedOnTrail(shape, spans, bins, bins', prio, -1, n);
    var tree' := if tree[n].counter > 0 then Recount(tree, n, -1) else tree;
    forall m | m in shape ensures Counted(shape, spans, tree', if m in trail[..k + 1] then bins' else bins, m) {
      assert Counted(shape, spans, tree, if m in trail[..k] then bins' else bins, m);
    }
  }

  lemma SinkEnd<T>(shape: Tree, spans: Spans, leaves: seq<NodeId>, top: NodeId, span: Span, tree: Tree,
      trail: seq<NodeId>, prio: nat, bins: seq<seq<T>>, bins': seq<seq<T>>)
    requires TreeOk(shape, spans, leaves, 0, top, span) && SameShape(shape, tree)
             && IsTrail(shape, spans, top, trail, prio)
    requires Changed(bins, bins', prio, -1) && HalfCounted(shape, spans, tree, trail, |trail| - 1, bins', bins)
    ensures TreeOk(tree, spans, leaves, 0, top, span) && AllCounted(tree, spans, bins')
  {
    var k := |trail| - 1;
    assert trail[..k + 1] == trail;
    NotAbove(shape, spans, leaves, top, span, trail, prio, k);
    assert TrailStep(shape, spans, trail, prio, k);
    forall n | n in shape ensures Counted(shape, spans, tree, bins', n) {
      assert Counted(shape, spans, tree, if n in trail[..k] then bins' else bins, n);
      if n !in trail[..k] {
        if Covers(spans, n, prio) {
          OnTrail(shape, spans, leaves, top, span, trail, prio, n);
        }
        CountedElsewhere(shape, spans, leaves, top, span, tree, bins, bins', prio, -1, n);
      }
    }
    AllRecounted(shape, spans, leaves, top, span, tree, bins');
  }

  // ---------------------------------------------------------------- building the tree

  /** The priorities below a node of the given height. */
  ghost function Range(height: nat, prio: nat): Span {
    Span(prio * Pow2(height), (prio + 1) * Pow2(height))
  }

  lemma Halves(height: nat, prio: nat)
    requires height > 0
    ensures var lo, mid, hi := Range(height, prio).lo, Range(height - 1, 2 * prio).hi, Range(height, prio).hi;
            lo < mid < hi && Range(height - 1, 2 * prio) == Span(lo, mid) && Range(height - 1, 2 * prio + 1) == Span(mid, hi)
  {
    var q := Pow2(height - 1);
    assert Pow2(height) == 2 * q;
    assert (2 * prio) * q == prio * (2 * q);
    assert (2 * prio + 1) * q == prio * (2 * q) + q;
    assert (2 * prio + 2) * q == (prio + 1) * (2 * q);
    assert (prio + 1) * (2 * q) == prio * (2 * q) + 2 * q;
  }

  lemma WholeRange(height: nat)
    ensures Range(height, 0) == Span(0, Pow2(height))
  {
  }

  /** The nodes that a call of `build_tree` adds. */
  ghost predicate Grown(tree: Tree, spans: Spans, leaves: seq<NodeId>, next: NodeId,
      tree': Tree, spans': Spans, leaves': seq<NodeId>, next': NodeId, span: Span)
  {
    && next < next' && |leaves'| == |leaves|
    && (forall n :: n in tree ==> n in tree' && tree'[n] == tree[n])
    && (forall n :: n in spans ==> n in spans' && spans'[n] == spans[n])
    && (forall n :: n in tree' && n !in tree ==> next <= n < next' && tree'[n].counter == 0)
    && (forall i :: 0 <= i < |leaves| && !(span.lo <= i < span.hi) ==> leaves'[i] == leaves[i])
  }

  /** New bins are empty, old ones as they were. */
  ghost predicate NewEmpty<T>(bins: map<NodeId, seq<T>>, bins': map<NodeId, seq<T>>) {
    bins.Keys <= bins'.Keys && forall n :: n in bins' ==> bins'[n] == if n in bins then bins[n] else []
  }

  lemma NewEmptyTwice<T>(a: map<NodeId, seq<T>>, top: NodeId, b: map<NodeId, seq<T>>, c: map<NodeId, seq<T>>)
    requires top !in a && NewEmpty(a[top := []], b) && NewEmpty(b, c)
    ensures NewEmpty(a, c)
  {
  }

  ghost predicate Fresh(tree: Tree, spans: Spans, next: NodeId) {
    spans.Keys == tree.Keys && forall n :: n in tree ==> n < next
  }

  /** A call of `build_tree` has made a tree over the given priorities. */
  ghost predicate Built(tree: Tree, spans: Spans, leaves: seq<NodeId>, next: NodeId,
      tree': Tree, spans': Spans, leaves': seq<NodeId>, next': NodeId, span: Span)
  {
    && |leaves'| == |leaves| && Fresh(tree', spans', next')
    && Grown(tree, spans, leaves, next, tree', spans', leaves', next', span)
    && TreeOk(tree', spans', leaves', next, next, span)
  }

  lemma OneLeaf(tree: Tree, spans: Spans, leaves: seq<NodeId>, next: NodeId, prio: nat)
    requires Fresh(tree, spans, next) && prio < |leaves|
    ensures var tree', spans' := tree[next := Node(None, None, None, 0)], spans[next := Span(prio, prio + 1)];
            var leaves' := leaves[prio := next];
            && TreeOk(tree', spans', leaves', next, next, Span(prio, prio + 1)) && Fresh(tree', spans', next + 1)
            && Grown(tree, spans, leaves, next, tree', spans', leaves', next + 1, Span(prio, prio + 1))
  {
  }

  /** A new node over two trees. */
  ghost function Joined(tree: Tree, top: NodeId, l: NodeId, r: NodeId): Tree
    requires l in tree && r in tree && l != r
  {
    tree[l := tree[l].(parent := Some(top))][r := tree[r].(parent := Some(top))][top := Node(None, Some(l), Some(r), 0)]
  }

  lemma JoinNode(tree: Tree, spans: Spans, leaves: seq<NodeId>, top: NodeId, l: NodeId, r: NodeId, side: NodeId,
      n: NodeId)
    requires l in tree && r in tree && top < l < r && top in tree && tree[top] == Node(None, None, None, 0)
    requires NodeOk(tree, spans, leaves, side, n) && (side == l || side == r) && n != top
    requires tree[l].parent == None && tree[r].parent == None
    requires tree[n].left != Some(top) && tree[n].right != Some(top)
    ensures NodeOk(Joined(tree, top, l, r), spans, leaves, top, n)
  {
    var tree' := Joined(tree, top, l, r);
    if tree[n].right.Some? {
      assert IsInner(tree, spans, n);
      assert tree[n].left.value != l && tree[n].left.value != r && tree[n].right.value != l && tree[n].right.value != r;
    }
    assert DownOk(tree', spans, leaves, n);
    if n != l && n != r {
      assert tree[n].parent.Some? && tree[n].parent.value != top;
    }
  }

  lemma JoinTrees(tree1: Tree, spans1: Spans, leaves1: seq<NodeId>, tree: Tree, spans: Spans, leaves: seq<NodeId>,
      top: NodeId, l: NodeId, r: NodeId, next: NodeId, lo: nat, mid: nat, hi: nat)
    requires TreeOk(tree1, spans1, leaves1, l, l, Span(lo, mid)) && TreeOk(tree, spans, leaves, r, r, Span(mid, hi))
    requires Grown(tree1, spans1, leaves1, r, tree, spans, leaves, next, Span(mid, hi))
    requires top in tree1 && tree1[top] == Node(None, None, None, 0) && top + 1 == l && l < r
    requires (forall n :: n in tree1 ==> n < r) && top in spans && spans[top] == Span(lo, hi)
    ensures l in tree && r in tree && TreeOk(Joined(tree, top, l, r), spans, leaves, top, top, Span(lo, hi))
  {
    var tree' := Joined(tree, top, l, r);
    forall n | n in tree' && n >= top
      ensures NodeOk(tree', spans, leaves, top, n) && lo <= spans[n].lo < spans[n].hi <= hi
    {
      if n == top {
      } else if n in tree1 {
        assert NodeOk(tree1, spans1, leaves1, l, n);
        assert NodeOk(tree, spans, leaves, l, n);
        JoinNode(tree, spans, leaves, top, l, r, l, n);
      } else {
        assert NodeOk(tree, spans, leaves, r, n);
        JoinNode(tree, spans, leaves, top, l, r, r, n);
      }
    }
    forall i | lo <= i < hi ensures LeafAt(tree', spans, leaves, i) {
      if i < mid {
        assert LeafAt(tree1, spans1, leaves1, i);
      } else {
        assert LeafAt(tree, spans, leaves, i);
      }
    }
  }

  /** A node and two trees made one after the other. */
  lemma JoinGrown(tree0: Tree, spans0: Spans, leaves0: seq<NodeId>, top: NodeId, tree1: Tree, spans1: Spans,
      leaves1: seq<NodeId>, tree: Tree, spans: Spans, leaves: seq<NodeId>, r: NodeId, next: NodeId, lo: nat, mid: nat,
      hi: nat)
    requires Fresh(tree0, spans0, top) && lo < mid < hi
    requires Built(tree0[top := Node(None, None, None, 0)], spans0[top := Span(lo, hi)], leaves0, top + 1,
                   tree1, spans1, leaves1, r, Span(lo, mid))
    requires Built(tree1, spans1, leaves1, r, tree, spans, leaves, next, Span(mid, hi))
    ensures top + 1 in tree && r in tree && top + 1 != r
    ensures Built(tree0, spans0, leaves0, top, Joined(tree, top, top + 1, r), spans, leaves, next, Span(lo, hi))
  {
    hide NodeOk, LeafAt;
    JoinTrees(tree1, spans1, leaves1, tree, spans, leaves, top, top + 1, r, next, lo, mid, hi);
    GrownTwice(tree0, spans0, leaves0, top, tree1, spans1, leaves1, tree, spans, leaves, r, next, lo, mid, hi);
  }

  lemma GrownTwice(tree0: Tree, spans0: Spans, leaves0: seq<NodeId>, top: NodeId, tree1: Tree, spans1: Spans,
      leaves1: seq<NodeId>, tree: Tree, spans: Spans, leaves: seq<NodeId>, r: NodeId, next: NodeId, lo: nat, mid: nat,
      hi: nat)
    requires Fresh(tree0, spans0, top) && Fresh(tree1, spans1, r) && Fresh(tree, spans, next) && lo < mid < hi
    requires Grown(tree0[top := Node(None, None, None, 0)], spans0[top := Span(lo, hi)], leaves0, top + 1,
                   tree1, spans1, leaves1, r, Span(lo, mid))
    requires Grown(tree1, spans1, leaves1, r, tree, spans, leaves, next, Span(mid, hi))
    requires top + 1 in tree1 && r in tree && top + 1 < r
    ensures Grown(tree0, spans0, leaves0, top, Joined(tree, top, top + 1, r), spans, leaves, next, Span(lo, hi))
    ensures Fresh(Joined(tree, top, top + 1, r), spans, next)
  {
  }

  // ---------------------------------------------------------------- seen from outside

  // The items come out by priority, and first in first out within one: in the order of `Concat`.

  /** New items go behind all items of the same or a lower number and before all others. */
  lemma PushedInOrder<T>(bins: seq<seq<T>>, prio: nat, items: seq<T>)
    requires prio < |bins|
    ensures Concat(bins) == Concat(bins[..prio + 1]) + Concat(bins[prio + 1..])
    ensures Concat(bins[prio := bins[prio] + items]) == Concat(bins[..prio + 1]) + items + Concat(bins[prio + 1..])
  {
    ConcatUpdate(bins, prio, bins[prio] + items);
    ConcatTake(bins, prio);
    Associate(Concat(bins[..prio]), bins[prio], items);
  }

  /** Empty bins in front do not show. */
  lemma EmptyBefore<T>(bins: seq<seq<T>>, prio: nat, bin: seq<T>)
    requires prio < |bins| && forall i :: 0 <= i < prio ==> bins[i] == []
    ensures Concat(bins[prio := bin]) == bin + Concat(bins[prio + 1..])
  {
    ConcatUpdate(bins, prio, bin);
    ConcatEmpty(bins[..prio]);
    NothingInFront(bin);
  }

  /** The first item of the lowest non-empty bin is the next one. */
  lemma LowestFirst<T>(bins: seq<seq<T>>, prio: nat)
    requires Lowest(bins, prio)
    ensures Concat(bins) == [bins[prio][0]] + Concat(bins[prio := bins[prio][1..]])
    ensures Concat(bins) == bins[prio] + Concat(bins[prio := []])
  {
    hide Concat;
    var bin, more := bins[prio], Concat(bins[prio + 1..]);
    assert bins[prio := bin] == bins;
    EmptyBefore(bins, prio, bin);
    EmptyBefore(bins, prio, bin[1..]);
    EmptyBefore(bins, prio, []);
    NothingInFront(more);
    assert bin == [bin[0]] + bin[1..];
    Associate([bin[0]], bin[1..], more);
  }

  lemma {:induction false} ConcatLength<T>(bins: seq<seq<T>>, lo: nat)
    requires lo <= |bins|
    ensures |Concat(bins[lo..])| == Sum(bins, lo, |bins|)
    decreases |bins| - lo
  {
    if lo < |bins| {
      ConcatLength(bins, lo + 1);
      assert bins[lo..][1..] == bins[lo + 1..];
    }
  }

  ghost function BinsOf<T>(leaves: seq<NodeId>, bins: map<NodeId, seq<T>>): (r: seq<seq<T>>)
    requires forall i :: 0 <= i < |leaves| ==> leaves[i] in bins
    ensures |r| == |leaves| && forall i :: 0 <= i < |leaves| ==> r[i] == bins[leaves[i]]
  {
    seq(|leaves|, i requires 0 <= i < |leaves| => bins[leaves[i]])
  }

  /** Putting another bin at a leaf. */
  lemma BinsChange<T>(tree: Tree, spans: Spans, leaves: seq<NodeId>, top: NodeId, bins: map<NodeId, seq<T>>, prio: nat,
      bin: seq<T>)
    requires TreeOk(tree, spans, leaves, 0, top, Span(0, |leaves|)) && bins.Keys == tree.Keys && prio < |leaves|
    ensures (forall i :: 0 <= i < |leaves| ==> leaves[i] in bins)
    ensures BinsOf(leaves, bins[leaves[prio] := bin]) == BinsOf(leaves, bins)[prio := bin]
  {
    forall i | 0 <= i < |leaves| ensures leaves[i] in bins && (leaves[i] == leaves[prio] ==> i == prio) {
      assert LeafAt(tree, spans, leaves, i) && LeafAt(tree, spans, leaves, prio);
    }
  }

  lemma ExactLog(n: nat, height: nat)
    requires Pow2(height) >= Pow2(n) && (height > 0 ==> Pow2(height - 1) < Pow2(n))
    ensures height == n
  {
    if height < n {
      Pow2Grows(height, n);
    } else if n < height - 1 {
      Pow2Grows(n, height - 1);
    }
  }

  /** In a new tree nothing is counted. */
  lemma EmptyCounted<T>(tree: Tree, spans: Spans, leaves: seq<NodeId>, top: NodeId, bins: map<NodeId, seq<T>>)
    requires TreeOk(tree, spans, leaves, 0, top, Span(0, |leaves|)) && bins.Keys == tree.Keys
    requires forall n :: n in tree ==> tree[n].counter == 0 && bins[n] == []
    ensures forall i :: 0 <= i < |leaves| ==> leaves[i] in bins
    ensures AllCounted(tree, spans, BinsOf(leaves, bins)) && Sum(BinsOf(leaves, bins), 0, |leaves|) == 0
  {
    forall i | 0 <= i < |leaves| ensures leaves[i] in bins && bins[leaves[i]] == [] {
      assert LeafAt(tree, spans, leaves, i);
    }
    var b := BinsOf(leaves, bins);
    SumNone(b, 0, |b|);
    forall n | n in tree ensures Counted(tree, spans, tree, b, n) {
      assert NodeOk(tree, spans, leaves, top, n);
      if tree[n].right.Some? {
        SumNone(b, spans[n].lo, Mid(tree, spans, n));
      }
    }
  }

  class BoundedQueue<T> {
    var tree: Tree
    var bins: map<NodeId, seq<T>>
    var leaves: seq<NodeId>
    var root: NodeId
    var total: int
    var range: nat
    var nextId: NodeId
    ghost var spans: Spans

    ghost predicate Shaped()
      reads this
    {
      TreeOk(tree, spans, leaves, 0, root, Span(0, |leaves|)) && bins.Keys == tree.Keys
      && (forall i :: 0 <= i < |leaves| ==> leaves[i] in bins) && range <= |leaves|
    }

    /** One bin for each priority. */
    ghost function Bins(): seq<seq<T>>
      reads this
      requires forall i :: 0 <= i < |leaves| ==> leaves[i] in bins
    {
      BinsOf(leaves, bins)
    }

    /** Every counter is the number of items on the left, and the total is the number of all items. */
    ghost predicate Valid()
      reads this
    {
      Shaped() && AllCounted(tree, spans, Bins()) && total == Sum(Bins(), 0, |leaves|)
    }

    /** A tree for at least `range` priorities, as large as the next power of two. */
    constructor (range: nat)
      requires range > 0
      ensures Valid() && this.range == range <= |leaves|
      ensures exists n: nat :: |leaves| == Pow2(n) && (n > 0 ==> Pow2(n - 1) < range)
      ensures forall i :: 0 <= i < |leaves| ==> Bins()[i] == []
    {
      this.range, total := range, 0;
      tree, bins, nextId, spans := map[], map[], 0, map[];
      root := 0;
      leaves := [];
      new;
      var number: nat;
      ghost var n: nat;
      number, n := NextPower2(range);
      leaves := seq(number, _ => 0);
      var height := UpperLog2(number);
      ExactLog(n, height);
      WholeRange(height);
      root := BuildTree(height, 0);
      EmptyCounted(tree, spans, leaves, root, bins);
    }

    /** `build_tree`: a tree of the given height over the priorities from `prio` times two to the height. */
    method BuildTree(height: nat, prio: nat) returns (top: NodeId)
      requires Fresh(tree, spans, nextId) && bins.Keys == tree.Keys && Range(height, prio).hi <= |leaves|
      modifies this`tree, this`bins, this`leaves, this`nextId, this`spans
      ensures Built(old(tree), old(spans), old(leaves), old(nextId), tree, spans, leaves, nextId, Range(height, prio))
      ensures NewEmpty(old(bins), bins) && bins.Keys == tree.Keys && top == old(nextId)
      decreases height
    {
      hide TreeOk, Grown, Joined, NewEmpty, Range;
      top := nextId;
      if height == 0 {
        BuildLeaf(prio);
        return;
      }
      Halves(height, prio);
      ghost var lo, mid, hi := Range(height, prio).lo, Range(height - 1, 2 * prio).hi, Range(height, prio).hi;
      NewNode(Span(lo, hi));
      var l := BuildTree(height - 1, 2 * prio);
      ghost var tree1, spans1, leaves1, bins1 := tree, spans, leaves, bins;
      var r := BuildTree(height - 1, 2 * prio + 1);
      JoinGrown(old(tree), old(spans), old(leaves), top, tree1, spans1, leaves1, tree, spans, leaves, r, nextId, lo, mid, hi);
      NewEmptyTwice(old(bins), top, bins1, bins);
      Join(top, l, r);
    }

    /** `new tree_node()`. */
    method NewNode(ghost span: Span)
      modifies this`tree, this`bins, this`nextId, this`spans
      ensures tree == old(tree)[old(nextId) := Node(None, None, None, 0)] && bins == old(bins)[old(nextId) := []]
      ensures spans == old(spans)[old(nextId) := span] && nextId == old(nextId) + 1
    {
      tree := tree[nextId := Node(None, None, None, 0)];
      bins := bins[nextId := []];
      spans := spans[nextId := span];
      nextId := nextId + 1;
    }

    method BuildLeaf(prio: nat)
      requires Fresh(tree, spans, nextId) && bins.Keys == tree.Keys && Range(0, prio).hi <= |leaves|
      modifies this`tree, this`bins, this`leaves, this`nextId, this`spans
      ensures Built(old(tree), old(spans), old(leaves), old(nextId), tree, spans, leaves, nextId, Range(0, prio))
      ensures NewEmpty(old(bins), bins) && bins.Keys == tree.Keys
    {
      OneLeaf(tree, spans, leaves, nextId, prio);
      leaves := leaves[prio := nextId];
      NewNode(Span(prio, prio + 1));
    }

    /** `root->left` and `root->right` and their parent pointers are set. */
    method Join(top: NodeId, l: NodeId, r: NodeId)
      requires l in tree && r in tree && l != r
      modifies this`tree
      ensures tree == Joined(old(tree), top, l, r)
    {
      tree := tree[l := tree[l].(parent := Some(top))];
      tree := tree[r := tree[r].(parent := Some(top))];
      tree := tree[top := Node(None, Some(l), Some(r), 0)];
    }

    /** The walk from a leaf to the root that adjusts the counters. */
    method Climb(start: NodeId, delta: int, ghost prio: nat, ghost bins0: seq<seq<T>>, ghost bins1: seq<seq<T>>)
      requires TreeOk(tree, spans, leaves, 0, root, Span(0, |leaves|)) && prio < |leaves| && start == leaves[prio]
      requires AllCounted(tree, spans, bins0) && |bins0| == |leaves|
      modifies this`tree
      ensures TreeOk(tree, spans, leaves, 0, root, Span(0, |leaves|)) && SameShape(old(tree), tree)
      ensures Changed(bins0, bins1, prio, delta) ==> AllCounted(tree, spans, bins1)
    {
      ghost var span := Span(0, |leaves|);
      ghost var trail := MakeTrail(tree, spans, leaves, 0, root, span, root, prio);
      ghost var k := |trail| - 1;
      TrailEnd(tree, spans, leaves, root, span, trail, prio);
      if Changed(bins0, bins1, prio, delta) {
        ClimbStart(tree, spans, leaves, root, span, trail, prio, bins0, bins1, delta);
      }
      var node := start;
      while node != root
        invariant 0 <= k < |trail| && node == trail[k]
        invariant SameShape(old(tree), tree)
        invariant Changed(bins0, bins1, prio, delta) ==> HalfCounted(old(tree), spans, tree, trail, k, bins0, bins1)
        decreases k
      {
        TrailParent(old(tree), spans, leaves, root, span, trail, prio, k);
        if Changed(bins0, bins1, prio, delta) {
          ClimbStep(old(tree), spans, leaves, root, span, tree, trail, prio, k, bins0, bins1, delta);
        }
        var parent := tree[node].parent.value;
        if tree[parent].left == Some(node) {
          tree := Recount(tree, parent, delta);
        }
        node := parent;
        k := k - 1;
      }
      if k > 0 {
        TrailParent(old(tree), spans, leaves, root, span, trail, prio, k);
      }
      ShapeKept(old(tree), spans, leaves, 0, root, span, tree);
      if Changed(bins0, bins1, prio, delta) {
        ClimbEnd(old(tree), spans, leaves, root, span, tree, trail, bins0, bins1);
      }
    }

    /** `push_queue`: a whole queue of items of one priority; `push` is the case of one item. */
    method PushQueue(items: seq<T>, prio: nat)
      requires Valid() && prio < |leaves|
      modifies this`tree, this`bins, this`total
      ensures Valid() && Bins() == old(Bins())[prio := old(Bins())[prio] + items]
      ensures total == old(total) + |items|
    {
      ghost var bins0 := Bins();
      var node := leaves[prio];
      BinsChange(tree, spans, leaves, root, bins, prio, bins[node] + items);
      bins := bins[node := bins[node] + items];
      SumUpdate(bins0, prio, bins0[prio] + items, 0, |leaves|);
      Climb(node, |items|, prio, bins0, Bins());
      total := total + |items|;
    }

    /** `push`. */
    method Push(item: T, prio: nat)
      requires Valid() && prio < |leaves|
      modifies this`tree, this`bins, this`total
      ensures Valid() && total == old(total) + 1
      ensures Concat(Bins()) == Concat(old(Bins())[..prio + 1]) + [item] + Concat(old(Bins())[prio + 1..])
    {
      PushedInOrder(Bins(), prio, [item]);
      PushQueue([item], prio);
    }

    /** `splice`: all queues of another priority queue over the same range.  They are linked in and the
        other queue is left to be cleared by its owner. */
    method Splice(other: seq<seq<T>>)
      requires Valid() && |other| >= range
      modifies this`tree, this`bins, this`total
      ensures Valid() && |Bins()| == |old(Bins())|
      ensures forall i :: 0 <= i < |leaves| ==> Bins()[i] == old(Bins())[i] + if i < range then other[i] else []
    {
      hide TreeOk, AllCounted, Sum;
      ghost var bins0 := Bins();
      for i := 0 to range
        invariant Valid() && |Bins()| == |leaves|
        invariant forall j :: 0 <= j < |leaves| ==> Bins()[j] == bins0[j] + if j < i then other[j] else []
      {
        if other[i] != [] {
          PushQueue(other[i], i);
        }
      }
    }

    /** The walk from the root to the lowest bin with an item. */
    method FindLowest(ghost prio: nat) returns (node: NodeId)
      requires Valid() && Lowest(Bins(), prio)
      ensures node == leaves[prio]
    {
      ghost var span := Span(0, |leaves|);
      ghost var trail := MakeTrail(tree, spans, leaves, 0, root, span, root, prio);
      ghost var k := 0;
      node := root;
      assert TrailStep(tree, spans, trail, prio, 0);
      while tree[node].right.Some?
        invariant 0 <= k < |trail| && node == trail[k] && node in tree
        decreases |trail| - k
      {
        assert TrailStep(tree, spans, trail, prio, k) && Counted(tree, spans, tree, Bins(), node);
        CounterPoints(tree, spans, leaves, root, span, tree, trail, prio, k, Bins());
        node := if tree[node].counter > 0 then tree[node].left.value else tree[node].right.value;
        k := k + 1;
      }
      assert TrailStep(tree, spans, trail, prio, k);
      TrailEnd(tree, spans, leaves, root, span, trail, prio);
    }

    /** `top`. */
    method Top() returns (item: T)
      requires Valid() && total > 0
      ensures Concat(Bins()) != [] && item == Concat(Bins())[0]
    {
      ghost var prio := LowestExists(Bins(), 0);
      LowestFirst(Bins(), prio);
      var node := FindLowest(prio);
      item := bins[node][0];
    }

    /** `pop`: the next item in the order of priorities, first in first out within one. */
    method Pop() returns (item: T)
      requires Valid() && total > 0
      modifies this`tree, this`bins, this`total
      ensures Valid() && total == old(total) - 1
      ensures old(Concat(Bins())) == [item] + Concat(Bins())
    {
      ghost var bins0, span := Bins(), Span(0, |leaves|);
      ghost var prio := LowestExists(bins0, 0);
      LowestFirst(bins0, prio);
      ghost var bins1 := bins0[prio := bins0[prio][1..]];
      var node := Sink(prio, bins1);
      item := bins[node][0];
      BinsChange(tree, spans, leaves, root, bins, prio, bins[node][1..]);
      bins := bins[node := bins[node][1..]];
      SumUpdate(bins0, prio, bins0[prio][1..], 0, |leaves|);
      total := total - 1;
    }

    /** The loop of `pop`, which counts the item off on its way. */
    method Sink(ghost prio: nat, ghost bins1: seq<seq<T>>) returns (node: NodeId)
      requires Valid() && Lowest(Bins(), prio) && Changed(Bins(), bins1, prio, -1)
      modifies this`tree
      ensures SameShape(old(tree), tree) && node == leaves[prio]
      ensures TreeOk(tree, spans, leaves, 0, root, Span(0, |leaves|)) && AllCounted(tree, spans, bins1)
    {
      ghost var bins0, span := Bins(), Span(0, |leaves|);
      ghost var trail := MakeTrail(tree, spans, leaves, 0, root, span, root, prio);
      ghost var k := 0;
      node := root;
      assert TrailStep(tree, spans, trail, prio, 0);
      assert trail[..0] == [];
      while tree[node].right.Some?
        invariant 0 <= k < |trail| && node == trail[k] && node in old(tree)
        invariant SameShape(old(tree), tree) && HalfCounted(old(tree), spans, tree, trail, k, bins1, bins0)
        decreases |trail| - k
      {
        assert TrailStep(old(tree), spans, trail, prio, k);
        SinkStep(old(tree), spans, leaves, root, span, tree, trail, prio, k, bins0, bins1);
        if tree[node].counter > 0 {
          tree := Recount(tree, node, -1);
          node := tree[node].left.value;
        } else {
          node := tree[node].right.value;
        }
        k := k + 1;
      }
      assert TrailStep(old(tree), spans, trail, prio, k);
      TrailEnd(old(tree), spans, leaves, root, span, trail, prio);
      SinkEnd(old(tree), spans, leaves, root, span, tree, trail, prio, bins0, bins1);
    }

    /** `top_list`: all items of the lowest priority go to the end of a list.  The counters are lowered by
        the length of the whole list: they stay right exactly when the list was empty. */
    method TopList(vec: seq<T>) returns (vec': seq<T>, ghost prio: nat)
      requires Valid()
      modifies this`tree, this`bins, this`total
      ensures old(total) == 0 ==> vec' == vec && Valid() && Bins() == old(Bins())
      ensures old(total) > 0 ==> Lowest(old(Bins()), prio) && vec' == vec + old(Bins())[prio]
      ensures old(total) > 0 && vec == [] ==>
                Valid() && Bins() == old(Bins())[prio := []] && old(Concat(Bins())) == vec' + Concat(Bins())
      ensures old(total) > 0 ==> (Valid() <==> vec == []) && total == old(total) - |vec'|
    {
      if total == 0 {
        return vec, 0;
      }
      prio := LowestExists(Bins(), 0);
      LowestFirst(Bins(), prio);
      var node := FindLowest(prio);
      vec' := vec + bins[node];
      TakeAll(node, |vec'|, prio);
    }

    /** The end of `top_list`. */
    method TakeAll(node: NodeId, size: int, ghost prio: nat)
      requires Valid() && prio < |leaves| && node == leaves[prio]
      modifies this`tree, this`bins, this`total
      ensures Shaped() && Bins() == old(Bins())[prio := []]
      ensures Valid() <==> size == |old(Bins())[prio]|
      ensures total == old(total) - size
    {
      hide TreeOk, AllCounted, Sum;
      ghost var bins0 := Bins();
      BinsChange(tree, spans, leaves, root, bins, prio, []);
      bins := bins[node := []];
      SumUpdate(bins0, prio, [], 0, |leaves|);
      Climb(node, -size, prio, bins0, Bins());
      total := total - size;
    }
  }

  /** One item is queued; taken into a list that holds another, it is counted off twice. */
  method ListNotEmpty() returns (total: int, vec: seq<int>)
    ensures total == -1 && vec == [7, 5]
  {
    var q := new BoundedQueue<int>(1);
    ghost var n: nat :| |q.leaves| == Pow2(n) && (n > 0 ==> Pow2(n - 1) < 1);
    assert n == 0;
    ghost var bins := q.Bins();
    assert bins == [[]] && q.total == 0;
    q.PushQueue([5], 0);
    assert q.Bins() == bins[0 := bins[0] + [5]] && bins[0] + [5] == [5];
    ghost var prio;
    vec, prio := q.TopList([7]);
    total := q.total;
  }
}
