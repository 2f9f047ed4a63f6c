/**
  The heap of nodes with back pointers (predicates/queue/safe_complex_pqueue.hpp): a node knows its
  position, so that any member can be removed or given another priority.
*/
module IntrusiveHeap {
  import opened Common
  import opened HeapOrder

  type NodeId = nat

  /** The priorities along the vector. */
  ghost function Values(heap: seq<NodeId>, priority: map<NodeId, Priority>): (ps: seq<Priority>)
    requires forall n :: n in heap ==> n in priority
    ensures |ps| == |heap| && forall i :: 0 <= i < |heap| ==> ps[i] == priority[heap[i]]
  {
    seq(|heap|, i requires 0 <= i < |heap| => priority[heap[i]])
  }

  /** Each node in the vector knows its position. */
  ghost predicate Positioned(heap: seq<NodeId>, position: map<NodeId, nat>) {
    forall i {:trigger heap[i]} :: 0 <= i < |heap| ==> heap[i] in position && position[heap[i]] == i
  }

  /** The same nodes, in another order. */
  ghost predicate SameNodes(a: seq<NodeId>, b: seq<NodeId>) {
    |a| == |b| && forall n :: n in a <==> n in b
  }

  lemma PositionedOnce(heap: seq<NodeId>, position: map<NodeId, nat>, i: nat, j: nat)
    requires Positioned(heap, position) && i < |heap| && j < |heap|
    ensures heap[i] == heap[j] ==> i == j
  {
  }

  lemma SwapNodes(heap: seq<NodeId>, position: map<NodeId, nat>, priority: map<NodeId, Priority>, i: nat, j: nat)
    requires i < |heap| && j < |heap| && i != j && Positioned(heap, position)
    requires forall n :: n in heap ==> n in priority
    ensures Positioned(Swapped(heap, i, j), position[heap[j] := i][heap[i] := j])
    ensures SameNodes(heap, Swapped(heap, i, j))
    ensures Values(Swapped(heap, i, j), priority) == Swapped(Values(heap, priority), i, j)
  {
    var r := Swapped(heap, i, j);
    PositionedOnce(heap, position, i, j);
    forall k: nat | k < |r| && k != i && k != j ensures r[k] != heap[i] && r[k] != heap[j] {
      PositionedOnce(heap, position, k, i);
      PositionedOnce(heap, position, k, j);
    }
    forall n | n in heap ensures n in r {
      var k :| 0 <= k < |heap| && heap[k] == n;
      assert r[if k == i then j else if k == j then i else k] == n;
    }
  }

  class ComplexPqueue {
    var typ: HeapType
    var heap: seq<NodeId>
    /** The intrusive fields of the nodes: priority, position and membership flag. */
    var priority: map<NodeId, Priority>
    var position: map<NodeId, nat>
    var inQueue: set<NodeId>

    ghost predicate Linked()
      reads this
    {
      && (forall n :: n in heap <==> n in inQueue) && (forall n :: n in inQueue ==> n in priority)
      && Positioned(heap, position)
    }

    /** Heap order, exact back pointers and exact membership flags. */
    ghost predicate Valid()
      reads this
    {
      Linked() && Ordered(typ, Values(heap, priority))
    }

    constructor (typ: HeapType)
      ensures Valid() && inQueue == {} && this.typ == typ
    {
      this.typ, heap, priority, position, inQueue := typ, [], map[], map[], {};
    }

    /** One swap of `heapifyup` or `heapifydown`: two `HEAP_SET_INDEX`. */
    method Swap(i: nat, j: nat)
      requires Linked() && i < |heap| && j < |heap| && i != j
      modifies this`heap, this`position
      ensures Linked() && heap == Swapped(old(heap), i, j)
      ensures Values(heap, priority) == Swapped(old(Values(heap, priority)), i, j)
    {
      SwapNodes(heap, position, priority, i, j);
      var obj, other := heap[i], heap[j];
      position := position[other := i][obj := j];
      heap := heap[i := other][j := obj];
    }

    /** `heapifyup`. */
    method HeapifyUp(start: nat) returns (moved: bool)
      requires Linked() && start < |heap| && UpReady(typ, Values(heap, priority), start)
      modifies this`heap, this`position
      ensures Valid() && |heap| == |old(heap)|
      ensures moved <==> heap != old(heap)
    {
      var index: nat := start;
      moved := false;
      while index > 0 && !Compare(typ, priority[heap[Parent(index)]], priority[heap[index]])
        invariant Linked() && index < |heap| == |old(heap)| && UpReady(typ, Values(heap, priority), index)
        invariant moved ==> index < start && heap[index] == old(heap)[start] && position[heap[index]] == index
        invariant !moved ==> heap == old(heap) && index == start
      {
        StepUp(typ, Values(heap, priority), index);
        Swap(Parent(index), index);
        index := Parent(index);
        moved := true;
      }
      EndUp(typ, Values(heap, priority), index);
      PositionedOnce(heap, position, start, index);
    }

    /** `heapifydown`. */
    method HeapifyDown(index: nat)
      requires Linked() && DownReady(typ, Values(heap, priority), index)
      modifies this`heap, this`position
      ensures Valid() && |heap| == |old(heap)|
      decreases |heap| - index
    {
      ghost var ps := Values(heap, priority);
      var l, r := 2 * index + 1, 2 * index + 2;
      if l >= |heap| {
        EndDown(typ, ps, index);
        return;
      }
      if Compare(typ, priority[heap[index]], priority[heap[l]])
         && (r >= |heap| || Compare(typ, priority[heap[index]], priority[heap[r]])) {
        EndDown(typ, ps, index);
        return;
      }
      var smaller := if r < |heap| && Compare(typ, priority[heap[r]], priority[heap[l]]) then r else l;
      StepDown(typ, ps, index, smaller);
      Swap(index, smaller);
      HeapifyDown(smaller);
    }

    /** `insert`. */
    method Insert(node: NodeId, prio: Priority)
      requires Valid() && node !in inQueue
      modifies this`heap, this`priority, this`position, this`inQueue
      ensures Valid() && inQueue == old(inQueue) + {node} && priority == old(priority)[node := prio]
    {
      ghost var ps := Values(heap, priority);
      priority := priority[node := prio];
      inQueue := inQueue + {node};
      heap := heap + [node];
      position := position[node := |heap| - 1];
      assert Values(heap, priority) == ps + [prio];
      PushReady(typ, ps, prio);
      var moved := HeapifyUp(|heap| - 1);
    }

    /** `min_value`: the smallest priority of a member of an ascending queue, the largest of a descending one. */
    method MinValue() returns (prio: Priority)
      requires Valid() && heap != []
      ensures exists n :: n in inQueue && priority[n] == prio
      ensures typ == Ascending ==> forall n :: n in inQueue ==> prio <= priority[n]
      ensures typ == Descending ==> forall n :: n in inQueue ==> prio >= priority[n]
    {
      prio := priority[heap[0]];
      assert heap[0] in inQueue;
      FrontBest(typ, heap, priority);
    }

    /** `pop`: a member with the smallest priority of an ascending queue, with the largest of a descending one. */
    method Pop() returns (best: Option<NodeId>)
      requires Valid()
      modifies this`heap, this`position, this`inQueue
      ensures Valid() && (best.None? <==> old(inQueue) == {})
      ensures best.None? ==> inQueue == {}
      ensures best.Some? ==>
                best.value in old(inQueue) && inQueue == old(inQueue) - {best.value}
      ensures best.Some? && typ == Ascending ==> forall n :: n in inQueue ==> priority[best.value] <= priority[n]
      ensures best.Some? && typ == Descending ==> forall n :: n in inQueue ==> priority[best.value] >= priority[n]
    {
      if heap == [] {
        return None;
      }
      assert heap[0] in inQueue;
      FrontBest(typ, heap, priority);
      ghost var heap0, ps := heap, Values(heap, priority);
      var min, last := heap[0], heap[|heap| - 1];
      position := position[last := 0];
      heap := heap[0 := last][..|heap| - 1];
      inQueue := inQueue - {min};
      FrontReplaced(heap0, old(position), 0);
      assert Values(heap, priority) == ps[0 := ps[|ps| - 1]][..|ps| - 1];
      RootReplaced(typ, ps);
      HeapifyDown(0);
      best := Some(min);
    }

    /** `remove`: any member. */
    method Remove(obj: NodeId)
      requires Valid() && obj in inQueue
      modifies this`heap, this`position, this`inQueue
      ensures Valid() && inQueue == old(inQueue) - {obj}
    {
      ghost var heap0, ps := heap, Values(heap, priority);
      var index := position[obj];
      assert heap[index] == obj by {
        var i :| 0 <= i < |heap| && heap[i] == obj;
      }
      var tmp := heap[|heap| - 1];
      heap := heap[..|heap| - 1];
      inQueue := inQueue - {obj};
      FrontReplaced(heap0, old(position), index);
      if index == |heap| {
        assert Values(heap, priority) == ps[..|ps| - 1];
        LastTaken(typ, ps);
        return;
      }
      heap := heap[index := tmp];
      position := position[tmp := index];
      assert heap == heap0[index := tmp][..|heap0| - 1];
      assert Values(heap, priority) == ps[..|ps| - 1][index := ps[|ps| - 1]];
      LastMoved(typ, ps, index);
      if index > 0 && Compare(typ, priority[tmp], priority[heap[Parent(index)]]) {
        var moved := HeapifyUp(index);
      } else {
        HeapifyDown(index);
      }
    }

    /** `move_node`: another priority for a member. */
    method MoveNode(node: NodeId, prio: Priority)
      requires Valid() && node in inQueue
      modifies this`heap, this`priority, this`position, this`inQueue
      ensures Valid() && inQueue == old(inQueue) && priority == old(priority)[node := prio]
    {
      Remove(node);
      Insert(node, prio);
    }
  }

  /** A descending queue gives the larger of two priorities first. */
  method LargerFirst() returns (value: Priority, best: Option<NodeId>)
    ensures value == 5.0 && best == Some(2)
  {
    var q := new ComplexPqueue(Descending);
    q.Insert(1, 1.0);
    q.Insert(2, 5.0);
    assert 2 in q.inQueue && q.heap != [];
    value := q.MinValue();
    ghost var members := q.inQueue;
    best := q.Pop();
    assert 2 in members - {1};
  }

  lemma FrontBest(typ: HeapType, heap: seq<NodeId>, priority: map<NodeId, Priority>)
    requires (forall n :: n in heap ==> n in priority) && heap != [] && Ordered(typ, Values(heap, priority))
    ensures typ == Ascending ==> forall n :: n in heap ==> priority[heap[0]] <= priority[n]
    ensures typ == Descending ==> forall n :: n in heap ==> priority[heap[0]] >= priority[n]
  {
    forall n | n in heap
      ensures if typ == Ascending then priority[heap[0]] <= priority[n] else priority[heap[0]] >= priority[n]
    {
      var i :| 0 <= i < |heap| && heap[i] == n;
      RootBest(typ, Values(heap, priority), i);
    }
  }

  /** The node at `index` leaves: the last node takes its place and the vector gets shorter. */
  lemma FrontReplaced(heap: seq<NodeId>, position: map<NodeId, nat>, index: nat)
    requires Positioned(heap, position) && index < |heap|
    ensures var last := heap[|heap| - 1];
            var r := heap[index := last][..|heap| - 1];
            && Positioned(r, position[last := index])
            && forall n :: n in r <==> n in heap && n != heap[index]
    ensures index == |heap| - 1 ==> heap[index := heap[|heap| - 1]][..|heap| - 1] == heap[..|heap| - 1]
  {
    var last := heap[|heap| - 1];
    var r := heap[index := last][..|heap| - 1];
    forall k: nat | k < |r| && k != index ensures r[k] == heap[k] && r[k] != last && r[k] != heap[index] {
      PositionedOnce(heap, position, k, |heap| - 1);
      PositionedOnce(heap, position, k, index);
    }
    forall n | n in heap && n != heap[index] ensures n in r {
      var k :| 0 <= k < |heap| && heap[k] == n;
      assert r[if k == |heap| - 1 then index else k] == n;
    }
    forall n | n in r ensures n in heap && n != heap[index] {
      var k :| 0 <= k < |r| && r[k] == n;
      PositionedOnce(heap, position, index, |heap| - 1);
    }
  }
}
