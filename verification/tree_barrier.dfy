/**
  The sense-reversing tree barrier of predicates/utils/tree_barrier.hpp.

  One thread waits on each node.  A run is any interleaving of the shared accesses in `wait`, on any
  tree in which every parent comes before its children; `Build` makes such a tree.
*/
module TreeBarrier {
  import opened Common

  datatype Node = Node(parent: Option<nat>, count: nat, childrenCount: int, threadSense: bool)

  /** Where a thread stands in `wait`; `Out` is outside. */
  datatype Pc = Out | SpinChildren | Reset | Signal | SpinSense | Leave

  datatype State = State(nodes: seq<Node>, sense: bool, pc: seq<Pc>, mySense: seq<bool>)

  /** How often each thread has entered and left `wait`, signalled upwards (for the root: reversed
      the global sense), and rearmed its counter. */
  datatype Log = Log(entered: seq<nat>, left: seq<nat>, signalled: seq<nat>, rearmed: seq<nat>)

  // ---------------------------------------------------------------- the tree

  function Children(nodes: seq<Node>, i: nat): set<nat> {
    set c | 0 <= c < |nodes| && nodes[c].parent == Some(i)
  }

  /** Node 0 is the root, parents come first, and counts are numbers of children. */
  ghost predicate Tree(nodes: seq<Node>) {
    && nodes != [] && nodes[0].parent == None
    && (forall i :: 0 < i < |nodes| ==> nodes[i].parent.Some? && nodes[i].parent.value < i)
    && (forall i :: 0 <= i < |nodes| ==> nodes[i].count == |Children(nodes, i)|)
  }

  // ---------------------------------------------------------------- one shared access

  function Start(nodes: seq<Node>): State {
    State(nodes, false, seq(|nodes|, _ => Out), seq(|nodes|, _ => true))
  }

  function StartLog(n: nat): Log {
    Log(seq(n, _ => 0), seq(n, _ => 0), seq(n, _ => 0), seq(n, _ => 0))
  }

  ghost predicate Shaped(s: State) {
    && |s.pc| == |s.nodes| && |s.mySense| == |s.nodes|
    && forall i :: 0 <= i < |s.nodes| && s.nodes[i].parent.Some? ==> s.nodes[i].parent.value < |s.nodes|
  }

  ghost predicate Sized(g: Log, n: nat) {
    |g.entered| == n && |g.left| == n && |g.signalled| == n && |g.rearmed| == n
  }

  ghost function Turn(s: State, i: nat): (s': State)
    requires Shaped(s) && i < |s.nodes|
    ensures Shaped(s') && |s'.nodes| == |s.nodes|
  {
    var me := s.nodes[i];
    match s.pc[i]
    case Out => s.(pc := s.pc[i := SpinChildren], mySense := s.mySense[i := me.threadSense])
    case SpinChildren => if me.childrenCount > 0 then s else s.(pc := s.pc[i := Reset])
    case Reset => s.(pc := s.pc[i := Signal], nodes := s.nodes[i := me.(childrenCount := me.count)])
    case Signal =>
      (match me.parent
       case Some(p) =>
         s.(pc := s.pc[i := SpinSense],
            nodes := s.nodes[p := s.nodes[p].(childrenCount := s.nodes[p].childrenCount - 1)])
       case None => s.(pc := s.pc[i := Leave], sense := !s.sense))
    case SpinSense => if s.sense != s.mySense[i] then s else s.(pc := s.pc[i := Leave])
    case Leave => s.(pc := s.pc[i := Out], nodes := s.nodes[i := me.(threadSense := !s.mySense[i])])
  }

  ghost function Record(s: State, g: Log, i: nat): (g': Log)
    requires Shaped(s) && Sized(g, |s.nodes|) && i < |s.nodes|
    ensures Sized(g', |s.nodes|)
  {
    match s.pc[i]
    case Out => g.(entered := g.entered[i := g.entered[i] + 1])
    case Reset => g.(rearmed := g.rearmed[i := g.rearmed[i] + 1])
    case Signal => g.(signalled := g.signalled[i := g.signalled[i] + 1])
    case Leave => g.(left := g.left[i := g.left[i] + 1])
    case _ => g
  }

  // ---------------------------------------------------------------- the invariant

  /** The children of `i` that have not signalled since `i` last rearmed. */
  ghost function Awaited(nodes: seq<Node>, g: Log, i: nat): set<nat>
    requires Sized(g, |nodes|) && i < |nodes|
  {
    set c | c in Children(nodes, i) && g.signalled[c] == g.rearmed[i]
  }

  predicate Signalled(pc: Pc) {
    pc.SpinSense? || pc.Leave?
  }

  /** One thread's counters, and how far it can be from the number of reversals so far. */
  ghost predicate ThreadInv(s: State, g: Log, i: nat)
    requires Shaped(s) && Sized(g, |s.nodes|) && i < |s.nodes|
  {
    var rounds := g.signalled[0];
    && s.nodes[i].threadSense == (g.left[i] % 2 == 0)
    && (s.pc[i] != Out ==> s.mySense[i] == s.nodes[i].threadSense)
    && g.entered[i] == g.left[i] + (if s.pc[i] == Out then 0 else 1)
    && g.signalled[i] == g.left[i] + (if Signalled(s.pc[i]) then 1 else 0)
    && g.rearmed[i] == g.signalled[i] + (if s.pc[i] == Signal then 1 else 0)
    && (!Signalled(s.pc[i]) ==> rounds == g.left[i])
    && (s.pc[i] == SpinSense ==> i != 0 && g.left[i] <= rounds <= g.left[i] + 1)
    && (s.pc[i] == Leave ==> rounds == g.left[i] + 1)
  }

  /** A node's counter against its children. */
  ghost predicate CounterInv(s: State, g: Log, i: nat)
    requires Shaped(s) && Sized(g, |s.nodes|) && i < |s.nodes|
  {
    && s.nodes[i].childrenCount == |Awaited(s.nodes, g, i)|
    && (s.pc[i] == Reset ==> Awaited(s.nodes, g, i) == {})
    && (forall c :: c in Children(s.nodes, i) ==> g.rearmed[i] <= g.signalled[c] <= g.rearmed[i] + 1)
  }

  ghost predicate Inv(s: State, g: Log) {
    && Tree(s.nodes) && Shaped(s) && Sized(g, |s.nodes|)
    && s.sense == (g.signalled[0] % 2 == 1)
    && (forall i :: 0 <= i < |s.nodes| ==> ThreadInv(s, g, i))
    && (forall i :: 0 <= i < |s.nodes| ==> CounterInv(s, g, i))
  }

  /** The nodes as `Build` leaves them: every counter armed, every thread sense opposite to the global. */
  ghost predicate Fresh(nodes: seq<Node>) {
    Tree(nodes) && forall i :: 0 <= i < |nodes| ==> nodes[i].childrenCount == nodes[i].count && nodes[i].threadSense
  }

  lemma StartInv(nodes: seq<Node>)
    requires Fresh(nodes)
    ensures Inv(Start(nodes), StartLog(|nodes|))
  {
    assert Shaped(Start(nodes));
    hide Tree, ThreadInv, CounterInv;
    forall i | 0 <= i < |nodes|
      ensures ThreadInv(Start(nodes), StartLog(|nodes|), i) && CounterInv(Start(nodes), StartLog(|nodes|), i)
    {
      StartThread(nodes, i);
      StartCounter(nodes, i);
    }
  }

  lemma StartThread(nodes: seq<Node>, i: nat)
    requires Fresh(nodes) && Shaped(Start(nodes)) && i < |nodes|
    ensures ThreadInv(Start(nodes), StartLog(|nodes|), i)
  {
    hide Tree;
  }

  lemma StartCounter(nodes: seq<Node>, i: nat)
    requires Fresh(nodes) && Shaped(Start(nodes)) && i < |nodes|
    ensures CounterInv(Start(nodes), StartLog(|nodes|), i)
  {
    assert Awaited(nodes, StartLog(|nodes|), i) == Children(nodes, i);
  }

  /** Every node has signalled at least as often as the root has rearmed. */
  lemma {:induction false} RootRearmsLast(s: State, g: Log, i: nat)
    requires Inv(s, g) && i < |s.nodes|
    ensures g.rearmed[0] <= g.rearmed[i]
    ensures i != 0 ==> g.rearmed[0] <= g.signalled[i]
  {
    if i != 0 {
      var p := s.nodes[i].parent.value;
      assert CounterInv(s, g, p) && i in Children(s.nodes, p);
      RootRearmsLast(s, g, p);
      assert ThreadInv(s, g, i);
    }
  }

  /** The child about to signal is one its parent is waiting for. */
  lemma SignalAwaited(s: State, g: Log, i: nat, p: nat)
    requires Inv(s, g) && i < |s.nodes| && s.pc[i] == Signal && s.nodes[i].parent == Some(p)
    ensures i in Awaited(s.nodes, g, p)
  {
    assert ThreadInv(s, g, i) && ThreadInv(s, g, 0) && CounterInv(s, g, p);
    assert i in Children(s.nodes, p);
    RootRearmsLast(s, g, p);
  }

  /** When the root is about to reverse the sense everybody else is spinning on it. */
  lemma RootReverses(s: State, g: Log, j: nat)
    requires Inv(s, g) && s.pc[0] == Signal && 0 < j < |s.nodes|
    ensures s.pc[j] == SpinSense && g.left[j] == g.signalled[0]
  {
    assert ThreadInv(s, g, 0) && ThreadInv(s, g, j);
    RootRearmsLast(s, g, j);
  }

  lemma SameChildren(nodes: seq<Node>, nodes': seq<Node>, i: nat)
    requires |nodes'| == |nodes| && forall j :: 0 <= j < |nodes| ==> nodes'[j].parent == nodes[j].parent
    ensures Children(nodes', i) == Children(nodes, i)
  {
  }

  /** Counters change, the tree does not. */
  lemma SameTree(nodes: seq<Node>, nodes': seq<Node>)
    requires Tree(nodes) && |nodes'| == |nodes|
    requires forall j :: 0 <= j < |nodes| ==> nodes'[j].parent == nodes[j].parent && nodes'[j].count == nodes[j].count
    ensures Tree(nodes') && forall j: nat :: Children(nodes', j) == Children(nodes, j)
  {
    forall j: nat ensures Children(nodes', j) == Children(nodes, j) {
      SameChildren(nodes, nodes', j);
    }
  }

  /** A node's counter does not depend on anything but itself, its rearmings and its children's signals. */
  lemma CounterFrame(s: State, g: Log, s': State, g': Log, i: nat)
    requires Inv(s, g) && Shaped(s') && Sized(g', |s'.nodes|) && |s'.nodes| == |s.nodes| && i < |s.nodes|
    requires Children(s'.nodes, i) == Children(s.nodes, i)
    requires s'.nodes[i].childrenCount == s.nodes[i].childrenCount && g'.rearmed[i] == g.rearmed[i]
    requires s'.pc[i] == Reset ==> s.pc[i] == Reset
    requires forall c :: c in Children(s.nodes, i) ==> g'.signalled[c] == g.signalled[c]
    ensures CounterInv(s', g', i)
  {
    assert CounterInv(s, g, i);
    assert Awaited(s'.nodes, g', i) == Awaited(s.nodes, g, i);
  }

  lemma RearmCounter(s: State, g: Log, i: nat)
    requires Inv(s, g) && i < |s.nodes| && s.pc[i] == Reset
    ensures CounterInv(Turn(s, i), Record(s, g, i), i)
  {
    var s', g' := Turn(s, i), Record(s, g, i);
    SameChildren(s.nodes, s'.nodes, i);
    assert CounterInv(s, g, i);
    forall c | c in Children(s.nodes, i) ensures g.signalled[c] == g.rearmed[i] + 1 {
      assert c !in Awaited(s.nodes, g, i);
    }
    assert Awaited(s'.nodes, g', i) == Children(s.nodes, i);
  }

  lemma SignalCounter(s: State, g: Log, i: nat, p: nat)
    requires Inv(s, g) && i < |s.nodes| && s.pc[i] == Signal && s.nodes[i].parent == Some(p)
    ensures CounterInv(Turn(s, i), Record(s, g, i), p)
  {
    var s', g' := Turn(s, i), Record(s, g, i);
    SameChildren(s.nodes, s'.nodes, p);
    SignalAwaited(s, g, i, p);
    assert CounterInv(s, g, p) && i != p;
    assert Awaited(s'.nodes, g', p) == Awaited(s.nodes, g, p) - {i};
  }

  lemma QuietThread(s: State, g: Log, i: nat, j: nat)
    requires Shaped(s) && Sized(g, |s.nodes|) && i < |s.nodes| && j < |s.nodes|
    requires s.pc[i] != Reset && s.pc[i] != Signal && s.sense == (g.signalled[0] % 2 == 1)
    requires ThreadInv(s, g, j)
    ensures ThreadInv(Turn(s, i), Record(s, g, i), j)
  {
  }

  lemma QuietTurn(s: State, g: Log, i: nat)
    requires Inv(s, g) && i < |s.nodes| && s.pc[i] != Reset && s.pc[i] != Signal
    ensures Inv(Turn(s, i), Record(s, g, i))
  {
    var s', g' := Turn(s, i), Record(s, g, i);
    SameTree(s.nodes, s'.nodes);
    forall j | 0 <= j < |s.nodes| ensures ThreadInv(s', g', j) && CounterInv(s', g', j) {
      QuietThread(s, g, i, j);
      if j == i && s'.pc[i] == Reset {
        assert CounterInv(s, g, i);
        assert Awaited(s'.nodes, g', i) == Awaited(s.nodes, g, i);
      } else {
        CounterFrame(s, g, s', g', j);
      }
    }
  }

  lemma RearmTurn(s: State, g: Log, i: nat)
    requires Inv(s, g) && i < |s.nodes| && s.pc[i] == Reset
    ensures Inv(Turn(s, i), Record(s, g, i))
  {
    var s', g' := Turn(s, i), Record(s, g, i);
    SameTree(s.nodes, s'.nodes);
    RearmCounter(s, g, i);
    forall j | 0 <= j < |s.nodes| ensures ThreadInv(s', g', j) && CounterInv(s', g', j) {
      assert ThreadInv(s, g, j);
      if j != i {
        CounterFrame(s, g, s', g', j);
      }
    }
  }

  lemma SignalTurn(s: State, g: Log, i: nat)
    requires Inv(s, g) && i < |s.nodes| && s.pc[i] == Signal && i != 0
    ensures Inv(Turn(s, i), Record(s, g, i))
  {
    var s', g' := Turn(s, i), Record(s, g, i);
    var p := s.nodes[i].parent.value;
    SameTree(s.nodes, s'.nodes);
    SignalCounter(s, g, i, p);
    forall j | 0 <= j < |s.nodes| ensures ThreadInv(s', g', j) && CounterInv(s', g', j) {
      assert ThreadInv(s, g, j);
      if j != p {
        assert i !in Children(s.nodes, j);
        CounterFrame(s, g, s', g', j);
      }
    }
  }

  lemma ReverseThread(s: State, g: Log, j: nat)
    requires Inv(s, g) && s.pc[0] == Signal && j < |s.nodes|
    ensures ThreadInv(Turn(s, 0), Record(s, g, 0), j)
  {
    hide CounterInv;
    assert ThreadInv(s, g, 0) && ThreadInv(s, g, j);
    if j != 0 {
      RootReverses(s, g, j);
    }
  }

  lemma ReverseCounter(s: State, g: Log, j: nat)
    requires Inv(s, g) && s.pc[0] == Signal && j < |s.nodes|
    ensures CounterInv(Turn(s, 0), Record(s, g, 0), j)
  {
    hide CounterInv, ThreadInv;
    assert 0 !in Children(s.nodes, j);
    CounterFrame(s, g, Turn(s, 0), Record(s, g, 0), j);
  }

  lemma ReverseTurn(s: State, g: Log)
    requires Inv(s, g) && s.pc[0] == Signal
    ensures Inv(Turn(s, 0), Record(s, g, 0))
  {
    hide CounterInv, ThreadInv, Children;
    var s', g' := Turn(s, 0), Record(s, g, 0);
    forall j | 0 <= j < |s.nodes| ensures ThreadInv(s', g', j) && CounterInv(s', g', j) {
      ReverseThread(s, g, j);
      ReverseCounter(s, g, j);
    }
  }

  lemma TurnInv(s: State, g: Log, i: nat)
    requires Inv(s, g) && i < |s.nodes|
    ensures Inv(Turn(s, i), Record(s, g, i))
  {
    if s.pc[i] == Reset {
      RearmTurn(s, g, i);
    } else if s.pc[i] == Signal && i == 0 {
      ReverseTurn(s, g);
    } else if s.pc[i] == Signal {
      SignalTurn(s, g, i);
    } else {
      QuietTurn(s, g, i);
    }
  }

  // ---------------------------------------------------------------- whole runs

  ghost predicate Schedule(threads: seq<nat>, n: nat) {
    forall k :: 0 <= k < |threads| ==> threads[k] < n
  }

  /** The state and log after the threads have taken turns in the given order. */
  ghost function Run(s: State, g: Log, threads: seq<nat>): (r: (State, Log))
    requires Shaped(s) && Sized(g, |s.nodes|) && Schedule(threads, |s.nodes|)
    ensures Shaped(r.0) && Sized(r.1, |r.0.nodes|) && |r.0.nodes| == |s.nodes|
    decreases |threads|
  {
    if threads == [] then (s, g)
    else Run(Turn(s, threads[0]), Record(s, g, threads[0]), threads[1..])
  }

  lemma {:induction false} RunInv(s: State, g: Log, threads: seq<nat>)
    requires Inv(s, g) && Schedule(threads, |s.nodes|)
    ensures Inv(Run(s, g, threads).0, Run(s, g, threads).1)
    decreases |threads|
  {
    if threads != [] {
      TurnInv(s, g, threads[0]);
      RunInv(Turn(s, threads[0]), Record(s, g, threads[0]), threads[1..]);
    }
  }

  lemma Apart(s: State, g: Log, i: nat, j: nat)
    requires Inv(s, g) && i < |s.nodes| && j < |s.nodes|
    ensures g.left[i] <= g.entered[j] <= g.entered[i] + 1
  {
    assert ThreadInv(s, g, i) && ThreadInv(s, g, j);
  }

  /** The barrier property: whatever the interleaving, a thread that has left its k-th wait finds that
      every thread has entered its own k-th wait, and nobody is more than one wait ahead. */
  lemma NobodyLeavesEarly(nodes: seq<Node>, threads: seq<nat>, i: nat, j: nat)
    requires Fresh(nodes) && Schedule(threads, |nodes|) && i < |nodes| && j < |nodes|
    ensures var g := Run(Start(nodes), StartLog(|nodes|), threads).1;
            g.left[i] <= g.entered[j] <= g.entered[i] + 1
  {
    StartInv(nodes);
    RunInv(Start(nodes), StartLog(|nodes|), threads);
    Apart(Run(Start(nodes), StartLog(|nodes|), threads).0, Run(Start(nodes), StartLog(|nodes|), threads).1, i, j);
  }

  lemma CounterRange(s: State, g: Log, i: nat)
    requires Inv(s, g) && i < |s.nodes|
    ensures 0 <= s.nodes[i].childrenCount <= s.nodes[i].count
    ensures s.pc[0] == Signal ==> Turn(s, 0).sense == s.mySense[0]
  {
    assert CounterInv(s, g, i) && ThreadInv(s, g, 0);
    Subset(Awaited(s.nodes, g, i), Children(s.nodes, i));
  }

  /** In every run no counter is ever negative, and the root's assertion on the sense it sets holds. */
  lemma CountersAndRootSense(nodes: seq<Node>, threads: seq<nat>, i: nat)
    requires Fresh(nodes) && Schedule(threads, |nodes|) && i < |nodes|
    ensures var s := Run(Start(nodes), StartLog(|nodes|), threads).0;
            && 0 <= s.nodes[i].childrenCount <= s.nodes[i].count
            && (s.pc[0] == Signal ==> Turn(s, 0).sense == s.mySense[0])
  {
    StartInv(nodes);
    RunInv(Start(nodes), StartLog(|nodes|), threads);
    CounterRange(Run(Start(nodes), StartLog(|nodes|), threads).0, Run(Start(nodes), StartLog(|nodes|), threads).1, i);
  }

  lemma Subset(a: set<nat>, b: set<nat>)
    requires a <= b
    ensures |a| <= |b|
  {
    assert b == a + (b - a);
  }

  predicate Spinning(s: State, i: nat)
    requires i < |s.nodes| && |s.pc| == |s.nodes| && |s.mySense| == |s.nodes|
  {
    (s.pc[i] == SpinChildren && s.nodes[i].childrenCount > 0) || (s.pc[i] == SpinSense && s.sense != s.mySense[i])
  }

  /** The last node still spinning on its children is waiting for a child that does not spin. */
  lemma {:induction false} SomebodyMoves(s: State, g: Log, i: nat) returns (mover: nat)
    requires Inv(s, g) && i < |s.nodes| && s.pc[i] == SpinChildren
    requires forall j :: 0 <= j < |s.nodes| ==> s.pc[j] != Out
    ensures mover < |s.nodes| && !Spinning(s, mover)
    decreases |s.nodes| - i
  {
    mover := i;
    assert CounterInv(s, g, i);
    if s.nodes[i].childrenCount > 0 {
      var c :| c in Awaited(s.nodes, g, i);
      assert ThreadInv(s, g, c) && ThreadInv(s, g, i) && ThreadInv(s, g, 0);
      mover := c;
      if s.pc[c] == SpinChildren {
        mover := SomebodyMoves(s, g, c);
      }
    }
  }

  /** The barrier never deadlocks: once every thread is inside `wait`, some thread is past its spin. */
  lemma NoDeadlock(s: State, g: Log)
    requires Inv(s, g) && forall j :: 0 <= j < |s.nodes| ==> s.pc[j] != Out
    ensures exists i :: 0 <= i < |s.nodes| && !Spinning(s, i)
  {
    assert ThreadInv(s, g, 0);
    if s.pc[0] == SpinChildren {
      var mover := SomebodyMoves(s, g, 0);
    } else {
      assert !Spinning(s, 0);
    }
  }

  // ---------------------------------------------------------------- how long a wait takes

  /** The turns up to the end of `wait`, spinning left aside. */
  function TurnsLeft(pc: Pc): nat {
    match pc
    case Out => 0
    case SpinChildren => 5
    case Reset => 4
    case Signal => 3
    case SpinSense => 2
    case Leave => 1
  }

  function AllTurnsLeft(pcs: seq<Pc>): (n: nat)
    ensures n <= 5 * |pcs|
  {
    if pcs == [] then 0 else AllTurnsLeft(pcs[..|pcs| - 1]) + TurnsLeft(pcs[|pcs| - 1])
  }

  lemma {:induction false} TurnsLeftUpdate(pcs: seq<Pc>, i: nat, pc: Pc)
    requires i < |pcs|
    ensures AllTurnsLeft(pcs[i := pc]) == AllTurnsLeft(pcs) - TurnsLeft(pcs[i]) + TurnsLeft(pc)
  {
    var l := |pcs| - 1;
    if i == l {
      assert pcs[i := pc][..l] == pcs[..l];
    } else {
      assert pcs[i := pc][..l] == pcs[..l][i := pc];
      TurnsLeftUpdate(pcs[..l], i, pc);
    }
  }

  /** The threads take turns in this order and none of them starts a new wait. */
  ghost predicate NobodyEnters(s: State, threads: seq<nat>)
    requires Shaped(s) && Schedule(threads, |s.nodes|)
    decreases |threads|
  {
    threads != [] ==> s.pc[threads[0]] != Out && NobodyEnters(Turn(s, threads[0]), threads[1..])
  }

  /** The turns that are not spent spinning. */
  ghost function Moves(s: State, threads: seq<nat>): nat
    requires Shaped(s) && Schedule(threads, |s.nodes|)
    decreases |threads|
  {
    if threads == [] then 0
    else (if Spinning(s, threads[0]) then 0 else 1) + Moves(Turn(s, threads[0]), threads[1..])
  }

  lemma MoveCosts(s: State, g: Log, i: nat)
    requires Shaped(s) && Sized(g, |s.nodes|) && i < |s.nodes| && s.pc[i] != Out
    ensures AllTurnsLeft(Turn(s, i).pc) + (if Spinning(s, i) then 0 else 1) <= AllTurnsLeft(s.pc)
    ensures Record(s, g, i).entered == g.entered
  {
    TurnsLeftUpdate(s.pc, i, Turn(s, i).pc[i]);
    assert Turn(s, i).pc == s.pc[i := Turn(s, i).pc[i]];
  }

  lemma {:induction false} MovesBound(s: State, g: Log, threads: seq<nat>)
    requires Shaped(s) && Sized(g, |s.nodes|) && Schedule(threads, |s.nodes|) && NobodyEnters(s, threads)
    ensures Moves(s, threads) + AllTurnsLeft(Run(s, g, threads).0.pc) <= AllTurnsLeft(s.pc)
    ensures Run(s, g, threads).1.entered == g.entered
    decreases |threads|
  {
    if threads != [] {
      var i := threads[0];
      MoveCosts(s, g, i);
      hide Shaped, Turn, Record, Spinning, AllTurnsLeft;
      MovesBound(Turn(s, i), Record(s, g, i), threads[1..]);
    }
  }

  /** When all threads have called `wait` equally often, somebody inside does not spin, or all are out. */
  lemma SomebodyInsideMoves(s: State, g: Log, k: nat) returns (mover: nat)
    requires Inv(s, g) && forall j :: 0 <= j < |s.nodes| ==> g.entered[j] == k
    ensures mover < |s.nodes|
    ensures (s.pc[mover] != Out && !Spinning(s, mover)) || forall j :: 0 <= j < |s.nodes| ==> s.pc[j] == Out
  {
    assert ThreadInv(s, g, 0);
    if g.signalled[0] == k {
      mover := 0;
      if i :| 0 <= i < |s.nodes| && s.pc[i] != Out {
        assert ThreadInv(s, g, i);
        mover := i;
      }
    } else {
      forall j | 0 <= j < |s.nodes| ensures s.pc[j] != Out {
        assert ThreadInv(s, g, j);
      }
      NoDeadlock(s, g);
      mover :| 0 <= mover < |s.nodes| && !Spinning(s, mover);
    }
  }

  /** Once all threads have called `wait` equally often, and while nobody calls it again, at most five turns
      for each thread are not spent spinning; and until all threads are out, one of those inside can take
      such a turn. */
  lemma WaitEnds(nodes: seq<Node>, before: seq<nat>, threads: seq<nat>, k: nat) returns (mover: nat)
    requires Fresh(nodes) && Schedule(before, |nodes|) && Schedule(threads, |nodes|)
    requires var (s, g) := Run(Start(nodes), StartLog(|nodes|), before);
             NobodyEnters(s, threads) && forall j :: 0 <= j < |nodes| ==> g.entered[j] == k
    ensures var (s, g) := Run(Start(nodes), StartLog(|nodes|), before);
            var s' := Run(s, g, threads).0;
            && Moves(s, threads) <= 5 * |nodes|
            && mover < |s'.nodes|
            && ((s'.pc[mover] != Out && !Spinning(s', mover)) || forall j :: 0 <= j < |s'.nodes| ==> s'.pc[j] == Out)
  {
    StartInv(nodes);
    RunInv(Start(nodes), StartLog(|nodes|), before);
    var (s, g) := Run(Start(nodes), StartLog(|nodes|), before);
    RunInv(s, g, threads);
    MovesBound(s, g, threads);
    mover := SomebodyInsideMoves(Run(s, g, threads).0, Run(s, g, threads).1, k);
  }

  /** A thread inside and past its spin gets closer to its end. */
  lemma MoveShortens(s: State, g: Log, mover: nat, k: nat)
    requires Inv(s, g) && mover < |s.nodes| && s.pc[mover] != Out && !Spinning(s, mover)
    requires forall j :: 0 <= j < |s.nodes| ==> g.entered[j] == k
    ensures var s', g' := Turn(s, mover), Record(s, g, mover);
            && Inv(s', g') && |s'.nodes| == |s.nodes| && AllTurnsLeft(s'.pc) < AllTurnsLeft(s.pc)
            && forall j :: 0 <= j < |s'.nodes| ==> g'.entered[j] == k
  {
    hide AllTurnsLeft;
    TurnInv(s, g, mover);
    TurnsLeftUpdate(s.pc, mover, Turn(s, mover).pc[mover]);
    assert Turn(s, mover).pc == s.pc[mover := Turn(s, mover).pc[mover]];
  }

  /** So a schedule that lets such a thread move brings everybody out. */
  lemma {:induction false} AllComeOut(s: State, g: Log, k: nat) returns (threads: seq<nat>)
    requires Inv(s, g) && forall j :: 0 <= j < |s.nodes| ==> g.entered[j] == k
    ensures Schedule(threads, |s.nodes|) && |threads| <= AllTurnsLeft(s.pc) && NobodyEnters(s, threads)
    ensures forall j :: 0 <= j < |s.nodes| ==> Run(s, g, threads).0.pc[j] == Out
    decreases AllTurnsLeft(s.pc)
  {
    hide AllTurnsLeft, TurnsLeft, Turn, Record, Spinning;
    var mover := SomebodyInsideMoves(s, g, k);
    if s.pc[mover] == Out {
      threads := [];
    } else {
      MoveShortens(s, g, mover, k);
      var rest := AllComeOut(Turn(s, mover), Record(s, g, mover), k);
      threads := [mover] + rest;
      assert threads[1..] == rest;
    }
  }

  // ---------------------------------------------------------------- the barrier in memory

  lemma QuotientSmaller(n: nat, r: nat)
    requires n >= 1 && r >= 2
    ensures 0 <= n / r < n
  {
    assert n == r * (n / r) + n % r;
    assert r * (n / r) == 2 * (n / r) + (r - 2) * (n / r);
  }

  /** The depth that the constructor computes by dividing until one is left. */
  function Depth(size: nat, radix: nat): nat
    requires radix >= 2
  {
    if size <= 1 then 0
    else
      QuotientSmaller(size, radix);
      1 + Depth(size / radix, radix)
  }

  ghost function Power(radix: nat, n: nat): nat {
    if n == 0 then 1 else radix * Power(radix, n - 1)
  }

  /** That depth is the least one at which fewer than two are left; for radix 2 it is the logarithm. */
  lemma {:induction false} DepthExactly(size: nat, radix: nat)
    requires radix >= 2
    ensures var d := Depth(size, radix);
            && size < 2 * Power(radix, d) && (d > 0 ==> 2 * Power(radix, d - 1) <= size)
            && (radix == 2 && size > 0 ==> Pow2(d) <= size < Pow2(d + 1))
    decreases size
  {
    if size > 1 {
      QuotientSmaller(size, radix);
      var rest := size / radix;
      DepthExactly(rest, radix);
      var d := Depth(rest, radix);
      Multiplied(size, radix, rest, Power(radix, d));
      if d > 0 {
        AtLeast(size, radix, rest, Power(radix, d - 1));
      }
    }
    if radix == 2 {
      BinaryPower(Depth(size, radix));
    }
  }

  lemma Multiplied(size: nat, radix: nat, rest: nat, p: nat)
    requires radix >= 2 && rest == size / radix && rest < 2 * p
    ensures size < 2 * (radix * p)
  {
    var slack: nat := 2 * p - (rest + 1);
    assert size == radix * rest + size % radix;
    assert radix * (rest + 1) == radix * rest + radix;
    assert radix * (2 * p) == radix * (rest + 1) + radix * slack;
    assert radix * (2 * p) == 2 * (radix * p);
  }

  lemma AtLeast(size: nat, radix: nat, rest: nat, p: nat)
    requires radix >= 2 && rest == size / radix && 2 * p <= rest
    ensures 2 * (radix * p) <= size
  {
    assert radix * (2 * p) <= radix * rest <= size;
    assert radix * (2 * p) == 2 * (radix * p);
  }

  lemma {:induction false} BinaryPower(n: nat)
    ensures Power(2, n) == Pow2(n)
  {
    if n > 0 {
      BinaryPower(n - 1);
    }
  }

  /** The number of nodes of a full tree. */
  function Capacity(radix: nat, depth: nat): nat
    decreases depth, 0
  {
    if depth == 0 then 1 else 1 + Forest(radix, depth - 1, radix)
  }

  /** The number of nodes of `k` full trees. */
  function Forest(radix: nat, depth: nat, k: nat): nat
    decreases depth, 1, k
  {
    if k == 0 then 0 else Forest(radix, depth, k - 1) + Capacity(radix, depth)
  }

  function Min(a: int, b: int): int {
    if a <= b then a else b
  }

  /** For radix 2 the full tree of that depth is never too small. */
  lemma {:induction false} BinaryDepthSuffices(size: nat)
    ensures size <= Capacity(2, Depth(size, 2))
  {
    if size > 1 {
      BinaryDepthSuffices(size / 2);
      ForestTwo(2, Depth(size / 2, 2));
    }
  }

  lemma ForestTwo(radix: nat, depth: nat)
    ensures Forest(radix, depth, 2) == 2 * Capacity(radix, depth)
  {
    assert Forest(radix, depth, 1) == Forest(radix, depth, 0) + Capacity(radix, depth);
  }

  /** For radix 3 it can be: 17 threads get a tree of 13 nodes. */
  lemma TernaryDepthFallsShort()
    ensures Depth(17, 3) == 2 && Capacity(3, 2) == 13
  {
    assert Depth(5, 3) == 1 + Depth(1, 3);
    forall d: nat ensures Forest(3, d, 3) == 3 * Capacity(3, d) {
      ForestTwo(3, d);
    }
  }

  /** Nodes from position `low` on are finished subtrees: counts and counters are the numbers of children. */
  ghost predicate Finished(nodes: seq<Node>, low: nat) {
    forall i :: low <= i < |nodes| ==> Counted(nodes, i)
  }

  ghost predicate Counted(nodes: seq<Node>, i: nat)
    requires i < |nodes|
  {
    nodes[i].count == |Children(nodes, i)| && nodes[i].childrenCount == nodes[i].count && nodes[i].threadSense
  }

  /** Nodes from position `low` on hang below one another, except the one at `low`, which hangs below `parent`. */
  ghost predicate Grown(nodes: seq<Node>, low: nat, parent: Option<nat>) {
    forall i :: low <= i < |nodes| ==>
      if i == low then nodes[i].parent == parent
      else nodes[i].parent.Some? && low <= nodes[i].parent.value < i
  }

  /** A finished subtree added behind `nodes` gives one more child to its parent and none to others. */
  lemma SubtreeChildren(nodes: seq<Node>, nodes': seq<Node>, parent: nat, i: nat)
    requires nodes <= nodes' && |nodes| < |nodes'| && Grown(nodes', |nodes|, Some(parent))
    requires i < |nodes|
    ensures Children(nodes', i) == Children(nodes, i) + (if i == parent then {|nodes|} else {})
    ensures |Children(nodes', i)| == |Children(nodes, i)| + (if i == parent then 1 else 0)
  {
    assert |nodes| !in Children(nodes, i);
    forall c ensures c in Children(nodes', i) <==> c in Children(nodes, i) || (i == parent && c == |nodes|) {
      if 0 <= c < |nodes| {
        assert nodes'[c] == nodes[c];
      }
    }
  }

  ghost predicate ParentsFirst(nodes: seq<Node>) {
    forall i :: 0 <= i < |nodes| && nodes[i].parent.Some? ==> nodes[i].parent.value < i
  }

  /** Below the node at `low`, one more call of `Build` adds one finished subtree or nothing. */
  lemma AddSubtree(nodes: seq<Node>, nodes': seq<Node>, low: nat, parent: Option<nat>)
    requires low < |nodes| && nodes <= nodes'
    requires Grown(nodes, low, parent) && Finished(nodes, low + 1)
    requires Grown(nodes', |nodes|, Some(low)) && Finished(nodes', |nodes|)
    ensures Grown(nodes', low, parent) && Finished(nodes', low + 1)
    ensures |Children(nodes', low)| == |Children(nodes, low)| + (if |nodes| < |nodes'| then 1 else 0)
  {
    if |nodes| == |nodes'| {
      assert nodes == nodes';
    } else {
      forall i | 0 <= i < |nodes'| ensures i < |nodes| ==> nodes'[i] == nodes[i] {
      }
      SubtreeChildren(nodes, nodes', low, low);
      forall i | low + 1 <= i < |nodes|
        ensures Counted(nodes', i)
      {
        assert Counted(nodes, i);
        SubtreeChildren(nodes, nodes', low, i);
      }
    }
  }

  lemma AddNode(nodes: seq<Node>, node: Node)
    requires ParentsFirst(nodes) && (node.parent.Some? ==> node.parent.value < |nodes|)
    ensures ParentsFirst(nodes + [node]) && Children(nodes + [node], |nodes|) == {}
    ensures Grown(nodes + [node], |nodes|, node.parent) && Finished(nodes + [node], |nodes| + 1)
  {
  }

  /** Correcting the count of the node at `low` finishes its subtree. */
  lemma FinishRoot(nodes: seq<Node>, nodes': seq<Node>, low: nat, parent: Option<nat>)
    requires low < |nodes| == |nodes'| && nodes' == nodes[low := nodes'[low]]
    requires ParentsFirst(nodes) && Grown(nodes, low, parent) && Finished(nodes, low + 1)
    requires nodes'[low] == Node(parent, |Children(nodes, low)|, |Children(nodes, low)|, true)
    ensures ParentsFirst(nodes') && Grown(nodes', low, parent) && Finished(nodes', low)
    ensures nodes'[..low] == nodes[..low]
  {
    forall i | low <= i < |nodes| ensures Counted(nodes', i) {
      SameChildren(nodes, nodes', i);
      assert i != low ==> Counted(nodes, i);
    }
  }

  lemma BuiltFresh(nodes: seq<Node>)
    requires nodes != [] && Grown(nodes, 0, None) && Finished(nodes, 0)
    ensures Fresh(nodes)
  {
    forall i | 0 <= i < |nodes|
      ensures nodes[i].count == |Children(nodes, i)| && nodes[i].childrenCount == nodes[i].count && nodes[i].threadSense
    {
      assert Counted(nodes, i);
    }
  }

  class Barrier {
    const size: nat
    const radix: nat
    var nodes: seq<Node>
    var sense: bool
    var pc: seq<Pc>
    var mySense: seq<bool>
    ghost var log: Log

    ghost function Now(): State
      reads this
    {
      State(nodes, sense, pc, mySense)
    }

    ghost predicate Valid()
      reads this
    {
      Inv(Now(), log)
    }

    /** The barrier is complete exactly when the full tree of the computed depth is large enough. */
    constructor (s: nat, r: nat)
      requires r >= 2
      ensures size == s && radix == r
      ensures |nodes| == Min(s, Capacity(r, Depth(s, r)))
      ensures |nodes| == s <==> s <= Capacity(r, Depth(s, r))
      ensures r == 2 ==> |nodes| == s
      ensures s > 0 ==> Fresh(nodes) && Now() == Start(nodes) && log == StartLog(|nodes|) && Valid()
    {
      size, radix := s, r;
      nodes, sense, pc, mySense := [], false, [], [];
      log := StartLog(0);
      new;
      var depth := ComputeDepth(s, r);
      var built := Build(None, depth);
      pc, mySense := seq(|nodes|, _ => Out), seq(|nodes|, _ => true);
      log := StartLog(|nodes|);
      BinaryDepthSuffices(s);
      if s > 0 {
        BuiltFresh(nodes);
        StartInv(nodes);
      }
    }

    static method ComputeDepth(s: nat, r: nat) returns (depth: nat)
      requires r >= 2
      ensures depth == Depth(s, r)
      ensures s < 2 * Power(r, depth) && (depth > 0 ==> 2 * Power(r, depth - 1) <= s)
      ensures r == 2 && s > 0 ==> Pow2(depth) <= s < Pow2(depth + 1)
    {
      DepthExactly(s, r);
      var rest := s;
      depth := 0;
      while rest > 1
        invariant 0 <= rest && depth + Depth(rest, r) == Depth(s, r)
        decreases rest
      {
        QuotientSmaller(rest, r);
        depth, rest := depth + 1, rest / r;
      }
    }

    /** Adds a subtree below `parent` until the nodes run out. */
    method Build(parent: Option<nat>, depth: nat) returns (built: bool)
      requires |nodes| <= size && !sense && ParentsFirst(nodes)
      requires parent.Some? ==> parent.value < |nodes|
      modifies this`nodes
      ensures built <==> |old(nodes)| < size
      ensures old(nodes) <= nodes && ParentsFirst(nodes)
      ensures |nodes| == Min(size, |old(nodes)| + Capacity(radix, depth))
      ensures Grown(nodes, |old(nodes)|, parent) && Finished(nodes, |old(nodes)|)
      decreases depth, 0
    {
      var thisId := |nodes|;
      if thisId == size {
        return false;
      }
      if depth == 0 {
        AddNode(nodes, Node(parent, 0, 0, !sense));
        nodes := nodes + [Node(parent, 0, 0, !sense)];
      } else {
        AddNode(nodes, Node(parent, radix, radix, !sense));
        nodes := nodes + [Node(parent, radix, radix, !sense)];
        var numChildren := BuildChildren(thisId, parent, depth - 1);
        ghost var before := nodes;
        if numChildren != radix {
          nodes := nodes[thisId := nodes[thisId].(count := numChildren, childrenCount := numChildren)];
        }
        FinishRoot(before, nodes, thisId, parent);
      }
      return true;
    }

    /** The loop over the radix in `Build`, for the node just added. */
    method BuildChildren(thisId: nat, ghost parent: Option<nat>, depth: nat) returns (numChildren: nat)
      requires thisId + 1 == |nodes| <= size && !sense && ParentsFirst(nodes)
      requires Children(nodes, thisId) == {} && Grown(nodes, thisId, parent) && Finished(nodes, thisId + 1)
      modifies this`nodes
      ensures old(nodes) <= nodes && ParentsFirst(nodes)
      ensures |nodes| == Min(size, thisId + 1 + Forest(radix, depth, radix))
      ensures Grown(nodes, thisId, parent) && Finished(nodes, thisId + 1)
      ensures numChildren == |Children(nodes, thisId)|
      decreases depth, 1
    {
      numChildren := 0;
      for i := 0 to radix
        invariant old(nodes) <= nodes && |nodes| <= size && ParentsFirst(nodes)
        invariant |nodes| == Min(size, thisId + 1 + Forest(radix, depth, i))
        invariant Grown(nodes, thisId, parent) && Finished(nodes, thisId + 1)
        invariant numChildren == |Children(nodes, thisId)|
      {
        ghost var before := nodes;
        var child := Build(Some(thisId), depth);
        if child {
          numChildren := numChildren + 1;
        }
        AddSubtree(before, nodes, thisId, parent);
      }
    }

    /** One shared access of the thread waiting on node `i`. */
    method Wait(i: nat)
      requires Valid() && i < |nodes|
      modifies this
      ensures Valid() && Now() == Turn(old(Now()), i) && log == Record(old(Now()), old(log), i)
    {
      TurnInv(Now(), log, i);
      CounterRange(Now(), log, i);
      log := Record(Now(), log, i);
      Access(i);
    }

    method Access(i: nat)
      requires Tree(nodes) && Shaped(Now()) && i < |nodes|
      requires pc[0] == Signal ==> Turn(Now(), 0).sense == mySense[0]
      modifies this`nodes, this`sense, this`pc, this`mySense
      ensures Now() == Turn(old(Now()), i)
    {
      match pc[i] {
        case Out =>
          mySense := mySense[i := nodes[i].threadSense];
          pc := pc[i := SpinChildren];
        case SpinChildren =>
          if nodes[i].childrenCount <= 0 {
            pc := pc[i := Reset];
          }
        case Reset =>
          nodes := nodes[i := nodes[i].(childrenCount := nodes[i].count)];
          pc := pc[i := Signal];
        case Signal =>
          if nodes[i].parent.Some? {
            var p := nodes[i].parent.value;
            nodes := nodes[p := nodes[p].(childrenCount := nodes[p].childrenCount - 1)];
            pc := pc[i := SpinSense];
          } else {
            sense := !sense;
            assert sense == mySense[i];
            pc := pc[i := Leave];
          }
        case SpinSense =>
          if sense == mySense[i] {
            pc := pc[i := Leave];
          }
        case Leave =>
          nodes := nodes[i := nodes[i].(threadSense := !mySense[i])];
          pc := pc[i := Out];
      }
    }
  }
}
