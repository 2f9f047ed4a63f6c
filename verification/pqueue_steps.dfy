/**
  `safe_bounded_pqueue` of predicates/queue/bounded_pqueue.hpp while it is shared: any number of threads
  push and one pops.

  Every access to a bin, a counter or the total is one atomic step, as the counters are `utils::atomic`
  and a bin is the lock-free queue of `LinearQueue`, whose accesses act on it as on a sequence.  A run is
  any interleaving of steps.
*/
module PqueueSteps {
  import opened Common
  import opened BoundedPqueue

  /** A thread that pushes has put `size` items into a bin and stands at `node` on its way to the root. */
  datatype Pusher = Idle | Climbing(node: NodeId, size: nat)

  /** The thread that pops: on its way down, about to lower a counter that it read as positive, or about
      to lower the total. */
  datatype Popper = Resting | Down(node: NodeId) | Lowering(node: NodeId) | Counting

  datatype State<T> = State(tree: Tree, bins: map<NodeId, seq<T>>, total: int, pushers: seq<Pusher>, popper: Popper)

  /** What `build_tree` fixes once and for all. */
  datatype Layout = Layout(spans: Spans, leaves: seq<NodeId>, top: NodeId)

  /** `BeginPush` is the access to the bin in `push` and `push_queue`; `Descend` reads a counter. */
  datatype Action<T> =
    | BeginPush(p: nat, items: seq<T>, prio: nat)
    | Climb(p: nat)
    | BeginPop
    | Descend
    | Lower
    | Take
    | EndPop

  /** All items ever put into each bin and taken from it. */
  datatype Log<T> = Log(pushed: map<NodeId, seq<T>>, popped: map<NodeId, seq<T>>)

  // ---------------------------------------------------------------- the program

  /** An action can be taken when its thread stands there; no null pointer is followed and no empty bin
      is popped. */
  ghost predicate Enabled<T>(q: Layout, s: State<T>, a: Action<T>) {
    match a
    case BeginPush(p, items, prio) =>
      p < |s.pushers| && s.pushers[p].Idle? && items != [] && prio < |q.leaves| && q.leaves[prio] in s.bins
    case Climb(p) =>
      p < |s.pushers| && s.pushers[p].Climbing? && var n := s.pushers[p].node;
      n == q.top || (n in s.tree && s.tree[n].parent.Some? && s.tree[n].parent.value in s.tree)
    case BeginPop => s.popper.Resting? && s.total > 0
    case Descend =>
      s.popper.Down? && var n := s.popper.node; n in s.tree && s.tree[n].right.Some?
    case Lower =>
      s.popper.Lowering? && var n := s.popper.node; n in s.tree && s.tree[n].left.Some?
    case Take =>
      s.popper.Down? && var n := s.popper.node;
      n in s.tree && s.tree[n].right.None? && n in s.bins && s.bins[n] != []
    case EndPop => s.popper.Counting?
  }

  ghost function Climbed<T>(q: Layout, s: State<T>, p: nat): State<T>
    requires Enabled(q, s, Climb(p))
  {
    var n, size := s.pushers[p].node, s.pushers[p].size;
    if n == q.top then
      s.(total := s.total + size, pushers := s.pushers[p := Idle])
    else
      var parent := s.tree[n].parent.value;
      s.(tree := if s.tree[parent].left == Some(n) then Recount(s.tree, parent, size) else s.tree,
         pushers := s.pushers[p := Climbing(parent, size)])
  }

  ghost function Apply<T>(q: Layout, s: State<T>, a: Action<T>): State<T>
    requires Enabled(q, s, a)
  {
    match a
    case BeginPush(p, items, prio) =>
      var leaf := q.leaves[prio];
      s.(bins := s.bins[leaf := s.bins[leaf] + items], pushers := s.pushers[p := Climbing(leaf, |items|)])
    case Climb(p) => Climbed(q, s, p)
    case BeginPop => s.(popper := Down(q.top))
    case Descend =>
      var n := s.popper.node;
      s.(popper := if s.tree[n].counter > 0 then Lowering(n) else Down(s.tree[n].right.value))
    case Lower =>
      var n := s.popper.node;
      s.(tree := Recount(s.tree, n, -1), popper := Down(s.tree[n].left.value))
    case Take =>
      var n := s.popper.node;
      s.(bins := s.bins[n := s.bins[n][1..]], popper := Counting)
    case EndPop => s.(total := s.total - 1, popper := Resting)
  }

  ghost function Record<T>(q: Layout, s: State<T>, g: Log<T>, a: Action<T>): Log<T>
    requires Enabled(q, s, a) && g.pushed.Keys == g.popped.Keys == s.bins.Keys
  {
    match a
    case BeginPush(p, items, prio) =>
      var leaf := q.leaves[prio];
      g.(pushed := g.pushed[leaf := g.pushed[leaf] + items])
    case Take =>
      var n := s.popper.node;
      g.(popped := g.popped[n := g.popped[n] + [s.bins[n][0]]])
    case _ => g
  }

  // ---------------------------------------------------------------- what is below a node

  ghost predicate Shape(q: Layout, tree: Tree) {
    TreeOk(tree, q.spans, q.leaves, 0, q.top, Span(0, |q.leaves|))
  }

  /** Node `m` is `n` or below it. */
  ghost predicate Within(spans: Spans, m: NodeId, n: NodeId) {
    m in spans && n in spans && spans[n].lo <= spans[m].lo && spans[m].hi <= spans[n].hi
  }

  /** The items in the bins below a node. */
  ghost function Held<T>(q: Layout, bins: map<NodeId, seq<T>>, n: NodeId): nat {
    if n in q.spans && q.spans[n].hi <= |q.leaves| && (forall i :: 0 <= i < |q.leaves| ==> q.leaves[i] in bins) then
      Sum(BinsOf(q.leaves, bins), q.spans[n].lo, q.spans[n].hi)
    else 0
  }

  ghost function Share(spans: Spans, pc: Pusher, n: NodeId): nat {
    if pc.Climbing? && Within(spans, pc.node, n) then pc.size else 0
  }

  /** The items pushed by threads that are still climbing below a node or stand at it. */
  ghost function Flying(spans: Spans, pushers: seq<Pusher>, n: NodeId): nat {
    if pushers == [] then 0 else Share(spans, pushers[0], n) + Flying(spans, pushers[1..], n)
  }

  /** The items below a node whose push has climbed past it. */
  ghost function Settled<T>(q: Layout, s: State<T>, n: NodeId): int {
    Held(q, s.bins, n) - Flying(q.spans, s.pushers, n)
  }

  /** One if the thread that pops is on its way down below the node or stands at it. */
  ghost function Passing(q: Layout, popper: Popper, n: NodeId): nat {
    if (popper.Down? || popper.Lowering?) && Within(q.spans, popper.node, n) then 1 else 0
  }

  lemma {:induction false} FlyingUpdate(spans: Spans, ps: seq<Pusher>, p: nat, pc: Pusher, n: NodeId)
    requires p < |ps|
    ensures Flying(spans, ps[p := pc], n) == Flying(spans, ps, n) - Share(spans, ps[p], n) + Share(spans, pc, n)
  {
    hide Share;
    if p > 0 {
      FlyingUpdate(spans, ps[1..], p - 1, pc, n);
      assert ps[p := pc][1..] == ps[1..][p - 1 := pc];
    } else {
      assert ps[p := pc][1..] == ps[1..];
    }
  }

  /** Whoever is below one of two neighbours is below what spans both, and below one of them only. */
  lemma {:induction false} FlyingSplit(spans: Spans, ps: seq<Pusher>, l: NodeId, r: NodeId, n: NodeId)
    requires l in spans && r in spans && n in spans && forall m :: m in spans ==> spans[m].lo < spans[m].hi
    requires spans[n].lo == spans[l].lo && spans[l].hi == spans[r].lo && spans[r].hi == spans[n].hi
    ensures Flying(spans, ps, l) + Flying(spans, ps, r) <= Flying(spans, ps, n)
  {
    if ps != [] {
      FlyingSplit(spans, ps[1..], l, r, n);
    }
  }

  lemma {:induction false} NoneFlying(spans: Spans, ps: seq<Pusher>, n: NodeId)
    requires forall i :: 0 <= i < |ps| ==> ps[i].Idle?
    ensures Flying(spans, ps, n) == 0
  {
    if ps != [] {
      NoneFlying(spans, ps[1..], n);
    }
  }

  /** An inner node and its children. */
  lemma Family(q: Layout, tree: Tree, n: NodeId)
    requires Shape(q, tree) && n in tree && tree[n].right.Some?
    ensures tree[n].left.Some? && tree[n].left != tree[n].right
    ensures var l, r := tree[n].left.value, tree[n].right.value;
            && l in tree && r in tree && tree[l].parent == Some(n) && tree[r].parent == Some(n)
            && l != q.top && r != q.top
            && n in q.spans && l in q.spans && r in q.spans
            && q.spans[n].lo == q.spans[l].lo < q.spans[l].hi == q.spans[r].lo < q.spans[r].hi == q.spans[n].hi
            && q.spans[l].hi == Mid(tree, q.spans, n) && q.spans[n].hi <= |q.leaves|
  {
    assert NodeOk(tree, q.spans, q.leaves, q.top, n);
  }

  /** A node other than the top has a parent, whose child it is. */
  lemma Parent(q: Layout, tree: Tree, x: NodeId)
    requires Shape(q, tree) && x in tree && x != q.top
    ensures tree[x].parent.Some? && tree[x].parent.value in tree && tree[tree[x].parent.value].right.Some?
    ensures tree[tree[x].parent.value].left == Some(x) || tree[tree[x].parent.value].right == Some(x)
    ensures Within(q.spans, x, tree[x].parent.value) && !Within(q.spans, tree[x].parent.value, x)
  {
    assert NodeOk(tree, q.spans, q.leaves, q.top, x);
    Family(q, tree, tree[x].parent.value);
  }

  /** On the way to a leaf each node is below those before it. */
  lemma {:induction false} TrailNested(q: Layout, tree: Tree, trail: seq<NodeId>, prio: nat, i: nat, j: nat)
    requires Shape(q, tree) && IsTrail(tree, q.spans, q.top, trail, prio) && i <= j < |trail|
    ensures Within(q.spans, trail[j], trail[i])
    decreases j - i
  {
    assert TrailStep(tree, q.spans, trail, prio, j);
    if i < j {
      TrailNested(q, tree, trail, prio, i, j - 1);
      TrailParent(tree, q.spans, q.leaves, q.top, Span(0, |q.leaves|), trail, prio, j);
      Parent(q, tree, trail[j]);
    }
  }

  /** What a node is below is the node itself or what its parent is below. */
  lemma JustAbove(q: Layout, tree: Tree, x: NodeId, c: NodeId)
    requires Shape(q, tree) && x in tree && c in tree && x != q.top
    ensures tree[x].parent.Some?
    ensures Within(q.spans, x, c) <==> x == c || Within(q.spans, tree[x].parent.value, c)
  {
    Parent(q, tree, x);
    if x != c && Within(q.spans, x, c) {
      ghost var span, prio := Span(0, |q.leaves|), q.spans[x].lo;
      assert NodeOk(tree, q.spans, q.leaves, q.top, x) && NodeOk(tree, q.spans, q.leaves, q.top, q.top);
      var trail := MakeTrail(tree, q.spans, q.leaves, 0, q.top, span, q.top, prio);
      OnTrail(tree, q.spans, q.leaves, q.top, span, trail, prio, x);
      OnTrail(tree, q.spans, q.leaves, q.top, span, trail, prio, c);
      var i :| 0 <= i < |trail| && trail[i] == c;
      var j :| 0 <= j < |trail| && trail[j] == x;
      if j < i {
        TrailShrinks(tree, q.spans, q.leaves, q.top, span, trail, prio, j, i);
      }
      TrailParent(tree, q.spans, q.leaves, q.top, span, trail, prio, j);
      TrailNested(q, tree, trail, prio, i, j - 1);
    }
  }

  /** The top is below nothing but itself. */
  lemma TopAlone(q: Layout, tree: Tree, c: NodeId)
    requires Shape(q, tree) && c in tree
    ensures Within(q.spans, c, q.top) && (Within(q.spans, q.top, c) <==> c == q.top)
  {
    assert NodeOk(tree, q.spans, q.leaves, q.top, c);
    if c != q.top {
      Parent(q, tree, c);
      assert NodeOk(tree, q.spans, q.leaves, q.top, tree[c].parent.value);
    }
  }

  /** A bin changes: the nodes over its leaf hold that much more. */
  lemma HeldChange<T>(q: Layout, tree: Tree, bins: map<NodeId, seq<T>>, x: NodeId, bin: seq<T>, n: NodeId)
    requires Shape(q, tree) && bins.Keys == tree.Keys && n in tree && x in tree && tree[x].right.None?
    ensures Held(q, bins[x := bin], n) == Held(q, bins, n) + if Within(q.spans, x, n) then |bin| - |bins[x]| else 0
  {
    assert NodeOk(tree, q.spans, q.leaves, q.top, x) && NodeOk(tree, q.spans, q.leaves, q.top, n);
    var prio := q.spans[x].lo;
    BinsChange(tree, q.spans, q.leaves, q.top, bins, prio, bin);
    SumUpdate(BinsOf(q.leaves, bins), prio, bin, q.spans[n].lo, q.spans[n].hi);
  }

  /** An inner node holds what its children hold. */
  lemma HeldSplit<T>(q: Layout, tree: Tree, bins: map<NodeId, seq<T>>, n: NodeId)
    requires Shape(q, tree) && n in tree && tree[n].right.Some?
    ensures tree[n].left.Some?
    ensures Held(q, bins, n) == Held(q, bins, tree[n].left.value) + Held(q, bins, tree[n].right.value)
  {
    Family(q, tree, n);
    if forall i :: 0 <= i < |q.leaves| ==> q.leaves[i] in bins {
      SumSplit(BinsOf(q.leaves, bins), q.spans[n].lo, Mid(tree, q.spans, n), q.spans[n].hi);
    }
  }

  /** A leaf holds its bin. */
  lemma HeldLeaf<T>(q: Layout, tree: Tree, bins: map<NodeId, seq<T>>, x: NodeId)
    requires Shape(q, tree) && bins.Keys == tree.Keys && x in tree && tree[x].right.None?
    ensures Held(q, bins, x) == |bins[x]|
  {
    assert NodeOk(tree, q.spans, q.leaves, q.top, x);
    var prio := q.spans[x].lo;
    BinsChange(tree, q.spans, q.leaves, q.top, bins, prio, bins[x]);
    assert Sum(BinsOf(q.leaves, bins), prio + 1, prio + 1) == 0;
  }

  // ---------------------------------------------------------------- the invariant

  ghost predicate CounterOk<T>(q: Layout, s: State<T>, n: NodeId, l: NodeId)
    requires n in s.tree
  {
    s.tree[n].counter == Settled(q, s, l) - Passing(q, s.popper, l)
  }

  /** Below a node there is an item for the thread that is on its way there, and the counter of an inner
      node is what has settled on its left, less one if that thread is on the left. */
  ghost predicate NodeInv<T>(q: Layout, s: State<T>, n: NodeId) {
    n in s.tree && Passing(q, s.popper, n) <= Settled(q, s, n)
    && (s.tree[n].right.Some? ==> s.tree[n].left.Some? && CounterOk(q, s, n, s.tree[n].left.value))
  }

  ghost predicate NodesInv<T>(q: Layout, s: State<T>) {
    forall n {:trigger NodeInv(q, s, n)} :: n in s.tree ==> NodeInv(q, s, n)
  }

  ghost predicate PusherOk(tree: Tree, pc: Pusher) {
    pc.Climbing? ==> pc.node in tree
  }

  ghost predicate ThreadsInv<T>(s: State<T>) {
    && (forall p {:trigger PusherOk(s.tree, s.pushers[p])} :: 0 <= p < |s.pushers| ==> PusherOk(s.tree, s.pushers[p]))
    && (s.popper.Down? || s.popper.Lowering? ==> s.popper.node in s.tree)
    && (s.popper.Lowering? ==> s.tree[s.popper.node].right.Some? && s.tree[s.popper.node].counter > 0)
  }

  ghost predicate TotalInv<T>(q: Layout, s: State<T>) {
    s.total == Settled(q, s, q.top) + if s.popper.Counting? then 1 else 0
  }

  /** Each bin is what was put into it, in order, without what was taken from its front. */
  ghost predicate LogInv<T>(s: State<T>, g: Log<T>) {
    g.pushed.Keys == g.popped.Keys == s.bins.Keys && forall n :: n in s.bins ==> g.pushed[n] == g.popped[n] + s.bins[n]
  }

  ghost predicate Inv<T>(q: Layout, s: State<T>, g: Log<T>) {
    Shape(q, s.tree) && s.bins.Keys == s.tree.Keys && NodesInv(q, s) && ThreadsInv(s) && TotalInv(q, s) && LogInv(s, g)
  }

  lemma LeafOf(q: Layout, tree: Tree, prio: nat)
    requires Shape(q, tree) && prio < |q.leaves|
    ensures q.leaves[prio] in tree && tree[q.leaves[prio]].right.None?
  {
    assert LeafAt(tree, q.spans, q.leaves, prio);
  }

  lemma RecountShape(q: Layout, tree: Tree, n: NodeId, delta: int)
    requires Shape(q, tree) && n in tree
    ensures Shape(q, Recount(tree, n, delta))
  {
    ShapeKept(tree, q.spans, q.leaves, 0, q.top, Span(0, |q.leaves|), Recount(tree, n, delta));
  }

  /** New items and their thread come together: nothing has settled yet. */
  lemma PushSettles<T>(q: Layout, s: State<T>, a: Action<T>, n: NodeId)
    requires Shape(q, s.tree) && s.bins.Keys == s.tree.Keys && Enabled(q, s, a) && a.BeginPush? && n in s.tree
    ensures Settled(q, Apply(q, s, a), n) == Settled(q, s, n)
  {
    hide TreeOk, Held, Flying;
    LeafOf(q, s.tree, a.prio);
    var leaf := q.leaves[a.prio];
    HeldChange(q, s.tree, s.bins, leaf, s.bins[leaf] + a.items, n);
    FlyingUpdate(q.spans, s.pushers, a.p, Climbing(leaf, |a.items|), n);
  }

  lemma BeginPushNodes<T>(q: Layout, s: State<T>, a: Action<T>)
    requires Shape(q, s.tree) && s.bins.Keys == s.tree.Keys && NodesInv(q, s) && TotalInv(q, s)
    requires Enabled(q, s, a) && a.BeginPush?
    ensures NodesInv(q, Apply(q, s, a)) && TotalInv(q, Apply(q, s, a))
  {
    hide TreeOk, Settled, Passing;
    var s' := Apply(q, s, a);
    forall n | n in s'.tree ensures NodeInv(q, s', n) {
      assert NodeInv(q, s, n);
      PushSettles(q, s, a, n);
      if s.tree[n].right.Some? {
        Family(q, s.tree, n);
        PushSettles(q, s, a, s.tree[n].left.value);
      }
    }
    TopIn(q, s.tree);
    PushSettles(q, s, a, q.top);
  }

  lemma BeginPushLog<T>(q: Layout, s: State<T>, g: Log<T>, a: Action<T>)
    requires LogInv(s, g) && Enabled(q, s, a) && a.BeginPush?
    ensures LogInv(Apply(q, s, a), Record(q, s, g, a))
  {
    var leaf := q.leaves[a.prio];
    Associate(g.popped[leaf], s.bins[leaf], a.items);
  }

  lemma BeginPushInv<T>(q: Layout, s: State<T>, g: Log<T>, a: Action<T>)
    requires Inv(q, s, g) && Enabled(q, s, a) && a.BeginPush?
    ensures Inv(q, Apply(q, s, a), Record(q, s, g, a))
  {
    BeginPushNodes(q, s, a);
    BeginPushLog(q, s, g, a);
    hide TreeOk, NodesInv, TotalInv, LogInv;
    var s' := Apply(q, s, a);
    LeafOf(q, s.tree, a.prio);
    forall p | 0 <= p < |s'.pushers| ensures PusherOk(s'.tree, s'.pushers[p]) {
      assert p != a.p ==> PusherOk(s.tree, s.pushers[p]);
    }
  }

  lemma TopIn(q: Layout, tree: Tree)
    requires Shape(q, tree)
    ensures q.top in tree
  {
  }

  /** A round of a climb settles the items at the node that is left behind, and there only. */
  lemma ClimbSettles<T>(q: Layout, s: State<T>, p: nat, c: NodeId)
    requires Shape(q, s.tree) && ThreadsInv(s) && Enabled(q, s, Climb(p)) && c in s.tree
    ensures Settled(q, Climbed(q, s, p), c)
            == Settled(q, s, c) + if c == s.pushers[p].node then s.pushers[p].size else 0
  {
    hide TreeOk, Held, Flying;
    assert PusherOk(s.tree, s.pushers[p]);
    var n, size := s.pushers[p].node, s.pushers[p].size;
    FlyingUpdate(q.spans, s.pushers, p, Climbed(q, s, p).pushers[p], c);
    if n == q.top {
      TopAlone(q, s.tree, c);
    } else {
      JustAbove(q, s.tree, n, c);
      Parent(q, s.tree, n);
    }
  }

  lemma ClimbInv<T>(q: Layout, s: State<T>, g: Log<T>, p: nat)
    requires Inv(q, s, g) && Enabled(q, s, Climb(p))
    ensures Inv(q, Climbed(q, s, p), g)
  {
    hide TreeOk, Settled, Passing;
    var s' := Climbed(q, s, p);
    var x, size := s.pushers[p].node, s.pushers[p].size;
    assert PusherOk(s.tree, s.pushers[p]);
    TopIn(q, s.tree);
    if x != q.top {
      Parent(q, s.tree, x);
      RecountShape(q, s.tree, s.tree[x].parent.value, size);
    }
    ClimbSettles(q, s, p, q.top);
    forall n | n in s'.tree ensures NodeInv(q, s', n) {
      assert NodeInv(q, s, n);
      ClimbSettles(q, s, p, n);
      if s.tree[n].right.Some? {
        Family(q, s.tree, n);
        ClimbSettles(q, s, p, s.tree[n].left.value);
      }
    }
    forall i | 0 <= i < |s'.pushers| ensures PusherOk(s'.tree, s'.pushers[i]) {
      assert PusherOk(s.tree, s.pushers[i]);
    }
  }

  /** One step further down concerns the new node only. */
  lemma PassingDown(q: Layout, tree: Tree, x: NodeId, c: NodeId)
    requires Shape(q, tree) && x in tree && x != q.top && c in tree
    ensures tree[x].parent.Some?
    ensures Passing(q, Down(x), c) == if c == x then 1 else Passing(q, Down(tree[x].parent.value), c)
    ensures Passing(q, Down(tree[x].parent.value), x) == 0
  {
    Parent(q, tree, x);
    JustAbove(q, tree, x, c);
  }

  lemma BeginPopInv<T>(q: Layout, s: State<T>, g: Log<T>)
    requires Inv(q, s, g) && Enabled(q, s, BeginPop)
    ensures Inv(q, Apply(q, s, BeginPop), g)
  {
    hide TreeOk, Held, Flying;
    var s' := Apply(q, s, BeginPop);
    TopIn(q, s.tree);
    forall n | n in s'.tree ensures NodeInv(q, s', n) {
      assert NodeInv(q, s, n);
      TopAlone(q, s.tree, n);
      if s.tree[n].right.Some? {
        Family(q, s.tree, n);
        TopAlone(q, s.tree, s.tree[n].left.value);
      }
    }
  }

  /** Where the counter is not positive, something has settled on the right. */
  lemma RightSettled<T>(q: Layout, s: State<T>, n: NodeId)
    requires Shape(q, s.tree) && n in s.tree && NodeInv(q, s, n) && s.popper == Down(n)
    requires s.tree[n].right.Some? && s.tree[n].counter <= 0
    ensures Settled(q, s, s.tree[n].right.value) > 0 && Settled(q, s, s.tree[n].left.value) <= 0
  {
    hide TreeOk, Held, Flying;
    Family(q, s.tree, n);
    var l, r := s.tree[n].left.value, s.tree[n].right.value;
    HeldSplit(q, s.tree, s.bins, n);
    Proper(q, s.tree);
    FlyingSplit(q.spans, s.pushers, l, r, n);
  }

  lemma Proper(q: Layout, tree: Tree)
    requires Shape(q, tree)
    ensures forall m :: m in q.spans ==> q.spans[m].lo < q.spans[m].hi
  {
    forall m | m in q.spans ensures q.spans[m].lo < q.spans[m].hi {
      assert NodeOk(tree, q.spans, q.leaves, q.top, m);
    }
  }

  lemma DescendInv<T>(q: Layout, s: State<T>, g: Log<T>)
    requires Inv(q, s, g) && Enabled(q, s, Descend)
    ensures Inv(q, Apply(q, s, Descend), g)
  {
    hide TreeOk, Held, Flying;
    var s' := Apply(q, s, Descend);
    var n := s.popper.node;
    TopIn(q, s.tree);
    assert NodeInv(q, s, n);
    Family(q, s.tree, n);
    var r := s.tree[n].right.value;
    if s.tree[n].counter <= 0 {
      RightSettled(q, s, n);
    }
    forall c | c in s'.tree ensures NodeInv(q, s', c) {
      assert NodeInv(q, s, c);
      if s.tree[c].right.Some? {
        Family(q, s.tree, c);
        PassingDown(q, s.tree, r, s.tree[c].left.value);
      }
      PassingDown(q, s.tree, r, c);
    }
  }

  lemma LowerNodes<T>(q: Layout, s: State<T>)
    requires Shape(q, s.tree) && NodesInv(q, s) && ThreadsInv(s) && TotalInv(q, s) && Enabled(q, s, Lower)
    ensures NodesInv(q, Apply(q, s, Lower)) && TotalInv(q, Apply(q, s, Lower))
  {
    hide TreeOk, Held, Flying;
    var s' := Apply(q, s, Lower);
    var n := s.popper.node;
    assert NodeInv(q, s, n);
    Family(q, s.tree, n);
    var l := s.tree[n].left.value;
    PassingDown(q, s.tree, l, l);
    forall c | c in s'.tree ensures NodeInv(q, s', c) {
      assert NodeInv(q, s, c);
      if s.tree[c].right.Some? {
        Family(q, s.tree, c);
        PassingDown(q, s.tree, l, s.tree[c].left.value);
      }
      PassingDown(q, s.tree, l, c);
    }
  }

  lemma LowerInv<T>(q: Layout, s: State<T>, g: Log<T>)
    requires Inv(q, s, g) && Enabled(q, s, Lower)
    ensures Inv(q, Apply(q, s, Lower), g)
  {
    hide TreeOk, NodesInv, TotalInv;
    var s' := Apply(q, s, Lower);
    LowerNodes(q, s);
    RecountShape(q, s.tree, s.popper.node, -1);
    Family(q, s.tree, s.popper.node);
    forall p | 0 <= p < |s'.pushers| ensures PusherOk(s'.tree, s'.pushers[p]) {
      assert PusherOk(s.tree, s.pushers[p]);
    }
  }

  /** The item taken is the one that was there for the thread that pops. */
  lemma TakeSettles<T>(q: Layout, s: State<T>, c: NodeId)
    requires Shape(q, s.tree) && s.bins.Keys == s.tree.Keys && Enabled(q, s, Take) && c in s.tree
    ensures Settled(q, Apply(q, s, Take), c) == Settled(q, s, c) - Passing(q, s.popper, c)
  {
    hide TreeOk, Held, Flying;
    var n := s.popper.node;
    HeldChange(q, s.tree, s.bins, n, s.bins[n][1..], c);
  }

  lemma TakeInv<T>(q: Layout, s: State<T>, g: Log<T>)
    requires Inv(q, s, g) && Enabled(q, s, Take)
    ensures Inv(q, Apply(q, s, Take), Record(q, s, g, Take))
  {
    hide TreeOk, Settled;
    var s' := Apply(q, s, Take);
    TopIn(q, s.tree);
    TakeSettles(q, s, q.top);
    TopAlone(q, s.tree, s.popper.node);
    forall c | c in s'.tree ensures NodeInv(q, s', c) {
      assert NodeInv(q, s, c);
      TakeSettles(q, s, c);
      if s.tree[c].right.Some? {
        Family(q, s.tree, c);
        TakeSettles(q, s, s.tree[c].left.value);
      }
    }
  }

  lemma EndPopInv<T>(q: Layout, s: State<T>, g: Log<T>)
    requires Inv(q, s, g) && Enabled(q, s, EndPop)
    ensures Inv(q, Apply(q, s, EndPop), g)
  {
    hide TreeOk, Held, Flying;
    var s' := Apply(q, s, EndPop);
    forall c | c in s'.tree ensures NodeInv(q, s', c) {
      assert NodeInv(q, s, c);
    }
  }

  /** Every step of every thread keeps the invariant. */
  lemma StepInv<T>(q: Layout, s: State<T>, g: Log<T>, a: Action<T>)
    requires Inv(q, s, g) && Enabled(q, s, a)
    ensures Inv(q, Apply(q, s, a), Record(q, s, g, a))
  {
    match a
    case BeginPush(_, _, _) => BeginPushInv(q, s, g, a);
    case Climb(p) => ClimbInv(q, s, g, p);
    case BeginPop => BeginPopInv(q, s, g);
    case Descend => DescendInv(q, s, g);
    case Lower => LowerInv(q, s, g);
    case Take => TakeInv(q, s, g);
    case EndPop => EndPopInv(q, s, g);
  }

  // ---------------------------------------------------------------- whole runs

  /** `actions` is an interleaving the threads can take from `s`. */
  ghost predicate Runnable<T>(q: Layout, s: State<T>, actions: seq<Action<T>>)
    decreases |actions|
  {
    actions != [] ==> Enabled(q, s, actions[0]) && Runnable(q, Apply(q, s, actions[0]), actions[1..])
  }

  ghost function After<T>(q: Layout, s: State<T>, actions: seq<Action<T>>): State<T>
    requires Runnable(q, s, actions)
    decreases |actions|
  {
    if actions == [] then s else After(q, Apply(q, s, actions[0]), actions[1..])
  }

  /** No thread is in the middle of an operation. */
  ghost predicate Quiet<T>(s: State<T>) {
    s.popper.Resting? && forall p :: 0 <= p < |s.pushers| ==> s.pushers[p].Idle?
  }

  /** What `BoundedQueue.Valid` says: every counter is the number of items on the left and the total is the
      number of all items. */
  ghost predicate Balanced<T>(q: Layout, s: State<T>) {
    && Shape(q, s.tree) && s.bins.Keys == s.tree.Keys && (forall i :: 0 <= i < |q.leaves| ==> q.leaves[i] in s.bins)
    && AllCounted(s.tree, q.spans, BinsOf(q.leaves, s.bins))
    && s.total == Sum(BinsOf(q.leaves, s.bins), 0, |q.leaves|)
  }

  /** A log that begins with the items that are in the bins. */
  ghost function StartLog<T>(s: State<T>): Log<T> {
    Log(s.bins, map n | n in s.bins :: [])
  }

  lemma AllBins<T>(q: Layout, s: State<T>)
    requires Shape(q, s.tree) && s.bins.Keys == s.tree.Keys
    ensures forall i :: 0 <= i < |q.leaves| ==> q.leaves[i] in s.bins
  {
    forall i | 0 <= i < |q.leaves| ensures q.leaves[i] in s.bins {
      LeafOf(q, s.tree, i);
    }
  }

  /** Without threads on their way all that is held has settled. */
  lemma QuietSettled<T>(q: Layout, s: State<T>, n: NodeId)
    requires Quiet(s)
    ensures Settled(q, s, n) == Held(q, s.bins, n) && Passing(q, s.popper, n) == 0 && s.popper.Resting?
  {
    NoneFlying(q.spans, s.pushers, n);
  }

  /** Without threads on their way a counter that is right up to them is right. */
  lemma QuietCounter<T>(q: Layout, s: State<T>, n: NodeId)
    requires Quiet(s) && Shape(q, s.tree) && s.bins.Keys == s.tree.Keys && n in s.tree
    ensures forall i :: 0 <= i < |q.leaves| ==> q.leaves[i] in s.bins
    ensures NodeInv(q, s, n) <==> Counted(s.tree, q.spans, s.tree, BinsOf(q.leaves, s.bins), n)
  {
    hide TreeOk, Settled, Passing, Quiet;
    AllBins(q, s);
    QuietSettled(q, s, n);
    if s.tree[n].right.Some? {
      Family(q, s.tree, n);
      QuietSettled(q, s, s.tree[n].left.value);
    } else {
      Keys(q, s.tree);
    }
  }

  lemma Keys(q: Layout, tree: Tree)
    requires Shape(q, tree)
    ensures q.spans.Keys == tree.Keys && q.top in tree && q.spans[q.top] == Span(0, |q.leaves|)
  {
  }

  /** Without threads on their way, the invariant of the shared queue and that of a queue used by one
      thread are the same. */
  lemma QuietExact<T>(q: Layout, s: State<T>)
    requires Quiet(s) && Shape(q, s.tree) && s.bins.Keys == s.tree.Keys
    ensures NodesInv(q, s) && TotalInv(q, s) <==> Balanced(q, s)
  {
    hide TreeOk, Settled, Passing, Quiet, Counted, NodeInv;
    AllBins(q, s);
    Keys(q, s.tree);
    QuietSettled(q, s, q.top);
    var b := BinsOf(q.leaves, s.bins);
    forall n | n in s.tree ensures NodeInv(q, s, n) <==> Counted(s.tree, q.spans, s.tree, b, n) {
      QuietCounter(q, s, n);
    }
  }

  lemma StartInv<T>(q: Layout, s: State<T>)
    requires Quiet(s) && Balanced(q, s)
    ensures Inv(q, s, StartLog(s))
  {
    hide TreeOk, NodesInv, TotalInv, AllCounted;
    QuietExact(q, s);
    forall n | n in s.bins ensures StartLog(s).pushed[n] == StartLog(s).popped[n] + s.bins[n] {
      NothingInFront(s.bins[n]);
    }
  }

  ghost function LogAfter<T>(q: Layout, s: State<T>, g: Log<T>, actions: seq<Action<T>>): Log<T>
    requires Inv(q, s, g) && Runnable(q, s, actions)
    decreases |actions|
  {
    if actions == [] then g
    else
      StepInv(q, s, g, actions[0]);
      LogAfter(q, Apply(q, s, actions[0]), Record(q, s, g, actions[0]), actions[1..])
  }

  lemma {:induction false} RunInv<T>(q: Layout, s: State<T>, g: Log<T>, actions: seq<Action<T>>)
    requires Inv(q, s, g) && Runnable(q, s, actions)
    ensures Inv(q, After(q, s, actions), LogAfter(q, s, g, actions))
    decreases |actions|
  {
    hide Enabled, Apply, Record, Shape, NodesInv, TotalInv, ThreadsInv;
    if actions != [] {
      StepInv(q, s, g, actions[0]);
      RunInv(q, Apply(q, s, actions[0]), Record(q, s, g, actions[0]), actions[1..]);
    }
  }

  /** In every run every counter is the number of items on the left, but for the items of threads that are
      still climbing there and for the thread that is going there to pop; the total likewise.  None is ever
      negative, so that the unsigned counters of the code do not wrap. */
  lemma CountersUpToFlight<T>(q: Layout, s0: State<T>, actions: seq<Action<T>>)
    requires Quiet(s0) && Balanced(q, s0) && Runnable(q, s0, actions)
    ensures var s := After(q, s0, actions);
            && (forall n :: n in s.tree && s.tree[n].right.Some? ==>
                  s.tree[n].left.Some? && s.tree[n].counter >= 0
                  && (var l := s.tree[n].left.value;
                      s.tree[n].counter + Flying(q.spans, s.pushers, l) + Passing(q, s.popper, l) == Held(q, s.bins, l)))
            && s.total >= 0
            && s.total + Flying(q.spans, s.pushers, q.top)
               == Held(q, s.bins, q.top) + if s.popper.Counting? then 1 else 0
  {
    hide TreeOk, Held, Flying, Passing;
    StartInv(q, s0);
    RunInv(q, s0, StartLog(s0), actions);
    var s := After(q, s0, actions);
    TopIn(q, s.tree);
    assert NodeInv(q, s, q.top);
    forall n | n in s.tree && s.tree[n].right.Some?
      ensures s.tree[n].left.Some? && s.tree[n].counter >= 0 && CounterOk(q, s, n, s.tree[n].left.value)
    {
      Family(q, s.tree, n);
      assert NodeInv(q, s, n) && NodeInv(q, s, s.tree[n].left.value);
    }
  }

  /** Quiescent consistency: whenever no thread is in the middle of an operation, all counters and the total
      are exact, however the operations were interleaved. */
  lemma QuietBalanced<T>(q: Layout, s0: State<T>, actions: seq<Action<T>>)
    requires Quiet(s0) && Balanced(q, s0) && Runnable(q, s0, actions) && Quiet(After(q, s0, actions))
    ensures Balanced(q, After(q, s0, actions))
  {
    hide TreeOk, NodesInv, TotalInv;
    StartInv(q, s0);
    RunInv(q, s0, StartLog(s0), actions);
    QuietExact(q, After(q, s0, actions));
  }

  /** In every run each bin gives its items in the order in which they were put into it, each once. */
  lemma BinsAreQueues<T>(q: Layout, s0: State<T>, actions: seq<Action<T>>)
    requires Quiet(s0) && Balanced(q, s0) && Runnable(q, s0, actions)
    ensures Inv(q, s0, StartLog(s0))
    ensures var s, g := After(q, s0, actions), LogAfter(q, s0, StartLog(s0), actions);
            g.pushed.Keys == g.popped.Keys == s.bins.Keys
            && forall n :: n in s.bins ==> g.pushed[n] == g.popped[n] + s.bins[n]
  {
    hide Shape, NodesInv, TotalInv, ThreadsInv;
    StartInv(q, s0);
    RunInv(q, s0, StartLog(s0), actions);
  }

  /** Every thread in the middle of an operation can go on: no null pointer is followed, and the thread that
      pops finds an item in the bin that it comes to, whatever is pushed meanwhile. */
  lemma NeverStuck<T>(q: Layout, s: State<T>, g: Log<T>)
    requires Inv(q, s, g)
    ensures forall p :: 0 <= p < |s.pushers| && s.pushers[p].Climbing? ==> Enabled(q, s, Climb(p))
    ensures s.popper.Down? ==> Enabled(q, s, Descend) || Enabled(q, s, Take)
    ensures s.popper.Lowering? ==> Enabled(q, s, Lower)
  {
    hide TreeOk, Held, Flying;
    forall p | 0 <= p < |s.pushers| && s.pushers[p].Climbing? ensures Enabled(q, s, Climb(p)) {
      assert PusherOk(s.tree, s.pushers[p]);
      if s.pushers[p].node != q.top {
        Parent(q, s.tree, s.pushers[p].node);
      }
    }
    if s.popper.Down? {
      var n := s.popper.node;
      assert NodeInv(q, s, n);
      if s.tree[n].right.None? {
        HeldLeaf(q, s.tree, s.bins, n);
        Keys(q, s.tree);
      }
    } else if s.popper.Lowering? {
      Family(q, s.tree, s.popper.node);
    }
  }

  /** Whatever the thread that pops leaves behind on its left belongs to pushes that have not climbed past
      that node yet. */
  lemma OnlyFlyingPassed<T>(q: Layout, s: State<T>, g: Log<T>)
    requires Inv(q, s, g) && Enabled(q, s, Descend) && Apply(q, s, Descend).popper.Down?
    ensures var n := s.popper.node;
            && s.tree[n].left.Some? && Apply(q, s, Descend).popper == Down(s.tree[n].right.value)
            && Held(q, s.bins, s.tree[n].left.value) == Flying(q.spans, s.pushers, s.tree[n].left.value)
  {
    hide TreeOk, Held, Flying;
    var n := s.popper.node;
    Family(q, s.tree, n);
    assert NodeInv(q, s, n) && NodeInv(q, s, s.tree[n].left.value);
    RightSettled(q, s, n);
  }

  // ---------------------------------------------------------------- coming to rest

  ghost function Width(q: Layout, n: NodeId): int {
    if n in q.spans then q.spans[n].hi - q.spans[n].lo else 0
  }

  /** How many more steps a thread that pushes can take. */
  ghost function Rise(q: Layout, pc: Pusher): int {
    if pc.Climbing? then 1 + |q.leaves| - Width(q, pc.node) else 0
  }

  ghost function Rises(q: Layout, pushers: seq<Pusher>): int {
    if pushers == [] then 0 else Rise(q, pushers[0]) + Rises(q, pushers[1..])
  }

  /** How many more steps the thread that pops can take. */
  ghost function Fall(q: Layout, popper: Popper): int {
    match popper
    case Resting => 0
    case Counting => 1
    case Down(n) => 2 * Width(q, n) + 1
    case Lowering(n) => 2 * Width(q, n)
  }

  ghost function Work<T>(q: Layout, s: State<T>): int {
    Rises(q, s.pushers) + Fall(q, s.popper)
  }

  /** No operation begins. */
  ghost predicate Settling<T>(actions: seq<Action<T>>) {
    forall i :: 0 <= i < |actions| ==> !actions[i].BeginPush? && !actions[i].BeginPop?
  }

  lemma {:induction false} RisesUpdate(q: Layout, ps: seq<Pusher>, p: nat, pc: Pusher)
    requires p < |ps|
    ensures Rises(q, ps[p := pc]) == Rises(q, ps) - Rise(q, ps[p]) + Rise(q, pc)
  {
    if p > 0 {
      RisesUpdate(q, ps[1..], p - 1, pc);
      assert ps[p := pc][1..] == ps[1..][p - 1 := pc];
    } else {
      assert ps[p := pc][1..] == ps[1..];
    }
  }

  lemma {:induction false} RisesPositive(q: Layout, tree: Tree, ps: seq<Pusher>)
    requires Shape(q, tree) && forall p :: 0 <= p < |ps| ==> PusherOk(tree, ps[p])
    ensures 0 <= Rises(q, ps)
  {
    if ps != [] {
      RisesPositive(q, tree, ps[1..]);
      assert PusherOk(tree, ps[0]);
      assert ps[0].Climbing? ==> NodeOk(tree, q.spans, q.leaves, q.top, ps[0].node);
    }
  }

  lemma WorkPositive<T>(q: Layout, s: State<T>, g: Log<T>)
    requires Inv(q, s, g)
    ensures 0 <= Work(q, s)
  {
    RisesPositive(q, s.tree, s.pushers);
    Proper(q, s.tree);
  }

  /** Every step of an operation that has begun brings it closer to its end. */
  lemma StepWorks<T>(q: Layout, s: State<T>, g: Log<T>, a: Action<T>)
    requires Inv(q, s, g) && Enabled(q, s, a) && !a.BeginPush? && !a.BeginPop?
    ensures Work(q, Apply(q, s, a)) < Work(q, s)
  {
    hide TreeOk, NodesInv, TotalInv, Rises;
    Keys(q, s.tree);
    Proper(q, s.tree);
    match a
    case Climb(p) =>
      var n := s.pushers[p].node;
      assert PusherOk(s.tree, s.pushers[p]);
      RisesUpdate(q, s.pushers, p, Climbed(q, s, p).pushers[p]);
      if n != q.top {
        Parent(q, s.tree, n);
      }
    case Descend => Family(q, s.tree, s.popper.node);
    case Lower => Family(q, s.tree, s.popper.node);
    case _ =>
  }

  /** Operations end: as long as none begins, at most `Work` more steps are taken, in any order. */
  lemma {:induction false} WorkBound<T>(q: Layout, s: State<T>, g: Log<T>, actions: seq<Action<T>>)
    requires Inv(q, s, g) && Runnable(q, s, actions) && Settling(actions)
    ensures |actions| <= Work(q, s)
    decreases |actions|
  {
    hide NodesInv, TotalInv, ThreadsInv, Shape, Work, Apply;
    WorkPositive(q, s, g);
    if actions != [] {
      StepInv(q, s, g, actions[0]);
      StepWorks(q, s, g, actions[0]);
      WorkBound(q, Apply(q, s, actions[0]), Record(q, s, g, actions[0]), actions[1..]);
    }
  }

  /** And as long as one is in the middle, a step can be taken: so there is a run to a state in which all have
      ended, where the counters are exact. */
  lemma {:induction false} Finishes<T>(q: Layout, s: State<T>, g: Log<T>) returns (actions: seq<Action<T>>, g': Log<T>)
    requires Inv(q, s, g)
    ensures Runnable(q, s, actions) && Settling(actions) && |actions| <= Work(q, s)
    ensures Quiet(After(q, s, actions)) && Balanced(q, After(q, s, actions)) && Inv(q, After(q, s, actions), g')
    decreases Work(q, s)
  {
    hide NodesInv, TotalInv, ThreadsInv, Shape, Work, Enabled, Apply, Record, Balanced, Quiet;
    WorkPositive(q, s, g);
    if Quiet(s) {
      QuietExact(q, s);
      actions, g' := [], g;
    } else {
      var a := NextStep(q, s, g);
      StepInv(q, s, g, a);
      StepWorks(q, s, g, a);
      WorkPositive(q, Apply(q, s, a), Record(q, s, g, a));
      var rest;
      rest, g' := Finishes(q, Apply(q, s, a), Record(q, s, g, a));
      actions := [a] + rest;
      assert actions[1..] == rest;
    }
  }

  lemma NextStep<T>(q: Layout, s: State<T>, g: Log<T>) returns (a: Action<T>)
    requires Inv(q, s, g) && !Quiet(s)
    ensures Enabled(q, s, a) && !a.BeginPush? && !a.BeginPop?
  {
    hide Inv;
    NeverStuck(q, s, g);
    match s.popper
    case Resting =>
      var p :| 0 <= p < |s.pushers| && !s.pushers[p].Idle?;
      a := Climb(p);
    case Down(n) => a := if Enabled(q, s, Descend) then Descend else Take;
    case Lowering(n) => a := Lower;
    case Counting => a := EndPop;
  }

  // ---------------------------------------------------------------- the queue in memory

  /** The fields of one shared queue and the program counters of its threads; each `Turn` is one step. */
  class SafeBoundedQueue<T> {
    var tree: Tree
    var bins: map<NodeId, seq<T>>
    var leaves: seq<NodeId>
    var root: NodeId
    var total: int
    var pushers: seq<Pusher>
    var popper: Popper
    ghost var spans: Spans
    ghost var log: Log<T>

    ghost function Now(): State<T>
      reads this
    {
      State(tree, bins, total, pushers, popper)
    }

    ghost function Fixed(): Layout
      reads this
    {
      Layout(spans, leaves, root)
    }

    ghost predicate Valid()
      reads this
    {
      Inv(Fixed(), Now(), log)
    }

    /** A queue that one thread has set up is shared. */
    constructor (queue: BoundedQueue<T>, threads: nat)
      requires queue.Valid()
      ensures Valid() && Quiet(Now()) && Balanced(Fixed(), Now()) && |pushers| == threads
      ensures tree == queue.tree && bins == queue.bins && leaves == queue.leaves && total == queue.total
    {
      tree, bins, leaves, root, total := queue.tree, queue.bins, queue.leaves, queue.root, queue.total;
      pushers, popper := seq(threads, _ => Idle), Resting;
      spans := queue.spans;
      log := StartLog(State(queue.tree, queue.bins, queue.total, seq(threads, _ => Idle), Resting));
      new;
      StartInv(Fixed(), Now());
    }

    /** One step of one thread, which needs nothing but that the thread stands there: what it follows and
        takes is there by the invariant. */
    method Turn(a: Action<T>)
      requires Valid() && Enabled(Fixed(), Now(), a)
      modifies this
      ensures Valid() && Fixed() == old(Fixed())
      ensures Now() == Apply(old(Fixed()), old(Now()), a) && log == Record(old(Fixed()), old(Now()), old(log), a)
    {
      hide Enabled, Apply, Record, Shape, NodesInv, ThreadsInv, TotalInv;
      StepInv(Fixed(), Now(), log, a);
      log := Record(Fixed(), Now(), log, a);
      Access(a);
    }

    /** The access itself. */
    method Access(a: Action<T>)
      requires Enabled(Fixed(), Now(), a)
      modifies this`tree, this`bins, this`total, this`pushers, this`popper
      ensures Now() == Apply(old(Fixed()), old(Now()), a)
    {
      match a {
        case BeginPush(p, items, prio) =>
          bins := bins[leaves[prio] := bins[leaves[prio]] + items];
          pushers := pushers[p := Climbing(leaves[prio], |items|)];
        case Climb(p) =>
          var node, size := pushers[p].node, pushers[p].size;
          if node == root {
            total := total + size;
            pushers := pushers[p := Idle];
          } else {
            var parent := tree[node].parent.value;
            if tree[parent].left == Some(node) {
              tree := Recount(tree, parent, size);
            }
            pushers := pushers[p := Climbing(parent, size)];
          }
        case BeginPop =>
          popper := Down(root);
        case Descend =>
          var node := popper.node;
          popper := if tree[node].counter > 0 then Lowering(node) else Down(tree[node].right.value);
        case Lower =>
          var node := popper.node;
          tree := Recount(tree, node, -1);
          popper := Down(tree[node].left.value);
        case Take =>
          bins := bins[popper.node := bins[popper.node][1..]];
          popper := Counting;
        case EndPop =>
          total := total - 1;
          popper := Resting;
      }
    }
  }
}
