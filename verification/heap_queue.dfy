/**
  The plain heap of predicates/queue/safe_simple_pqueue.hpp, whose `remove` looks for an element level by
  level and gives up after a level with nothing better than what it looks for.
*/
module HeapQueue {
  import opened Common
  import opened HeapOrder

  /** `heap_object`. */
  datatype Entry<T> = Entry(data: T, val: Priority)

  ghost function Values<T>(heap: seq<Entry<T>>): (ps: seq<Priority>)
    ensures |ps| == |heap| && forall i :: 0 <= i < |heap| ==> ps[i] == heap[i].val
  {
    seq(|heap|, i requires 0 <= i < |heap| => heap[i].val)
  }

  lemma SwapValues<T>(heap: seq<Entry<T>>, i: nat, j: nat)
    requires i < |heap| && j < |heap|
    ensures Values(Swapped(heap, i, j)) == Swapped(Values(heap), i, j)
    ensures multiset(Swapped(heap, i, j)) == multiset(heap)
  {
  }

  // ---------------------------------------------------------------- levels

  /** The index of the first node on the level of node `i`. */
  function LevelStart(i: nat): nat {
    if i == 0 then 0 else 2 * LevelStart(Parent(i)) + 1
  }

  lemma {:induction false} LevelBounds(i: nat)
    ensures LevelStart(i) <= i <= 2 * LevelStart(i)
  {
    if i > 0 {
      LevelBounds(Parent(i));
    }
  }

  /** `s` is the first index of a level. */
  ghost predicate IsStart(s: nat) {
    LevelStart(s) == s
  }

  lemma NextLevel(s: nat)
    requires IsStart(s)
    ensures IsStart(2 * s + 1)
  {
    assert Parent(2 * s + 1) == s;
  }

  /** Two levels do not overlap. */
  lemma {:induction false} LevelOf(s: nat, i: nat)
    requires IsStart(s) && s <= i <= 2 * s
    ensures LevelStart(i) == s
    decreases i
  {
    if s > 0 {
      var t := Parent(s);
      LevelBounds(t);
      assert 2 * LevelStart(t) + 1 == s;
      assert LevelStart(t) == t;
      LevelOf(t, Parent(i));
    }
  }

  /** No node on the level starting at `s` is better than `prio`. */
  ghost predicate NoneBetter(t: HeapType, ps: seq<Priority>, prio: Priority, s: nat) {
    forall j {:trigger ps[j]} :: s <= j <= 2 * s && j < |ps| ==> Compare(t, prio, ps[j])
  }

  /** The search reaches position `p`: on every level above it some node is better than `prio`. */
  ghost predicate Reaches(t: HeapType, ps: seq<Priority>, prio: Priority, p: nat) {
    forall s {:trigger IsStart(s)} :: 0 <= s && IsStart(s) && 2 * s < p ==> !NoneBetter(t, ps, prio, s)
  }

  /** The ancestor of `p` on the level starting at `s`. */
  lemma {:induction false} Ancestor(t: HeapType, ps: seq<Priority>, p: nat, s: nat) returns (a: nat)
    requires Ordered(t, ps) && p < |ps| && IsStart(s) && 2 * s < p
    ensures s <= a <= 2 * s && a < p && Compare(t, ps[a], ps[p])
    decreases p
  {
    var q := Parent(p);
    assert Edge(t, ps, p);
    LevelBounds(p);
    if q <= 2 * s {
      a := q;
      if q < s {
        LevelBounds(s);
        BelowStart(s, p);
      }
    } else {
      a := Ancestor(t, ps, q, s);
    }
  }

  lemma BelowStart(s: nat, p: nat)
    requires p > 2 * s
    ensures p > 0 && Parent(p) >= s
  {
  }

  /** In a heap in which no two elements have the same priority the search reaches every element. */
  lemma DistinctReaches(t: HeapType, ps: seq<Priority>, p: nat)
    requires Ordered(t, ps) && p < |ps|
    requires forall i, j :: 0 <= i < j < |ps| ==> ps[i] != ps[j]
    ensures Reaches(t, ps, ps[p], p)
  {
    forall s {:trigger IsStart(s)} | 0 <= s && IsStart(s) && 2 * s < p ensures !NoneBetter(t, ps, ps[p], s) {
      var a := Ancestor(t, ps, p, s);
      assert ps[a] != ps[p];
      assert !Compare(t, ps[p], ps[a]);
    }
  }

  /** With equal priorities the search may give up on an element that is there. */
  lemma EqualPrioritiesMissed()
    ensures var ps := [1.0, 1.0]; Ordered(Ascending, ps) && !Reaches(Ascending, ps, ps[1], 1)
  {
    var ps := [1.0, 1.0];
    assert IsStart(0) && NoneBetter(Ascending, ps, ps[1], 0);
  }

  /** In a heap, a level with nothing better than `prio` has no level with something better below it. */
  lemma {:induction false} NoneBetterBelow(t: HeapType, ps: seq<Priority>, prio: Priority, s: nat, u: nat)
    requires Ordered(t, ps) && IsStart(s) && IsStart(u) && s <= u && NoneBetter(t, ps, prio, s)
    ensures NoneBetter(t, ps, prio, u)
    decreases u
  {
    if s < u {
      var v := Parent(u);
      LevelBounds(v);
      assert IsStart(v) && u == 2 * v + 1;
      if v < s {
        LevelOf(v, s);
      }
      NoneBetterBelow(t, ps, prio, s, v);
      forall j {:trigger ps[j]} | u <= j <= 2 * u && j < |ps| ensures Compare(t, prio, ps[j]) {
        assert Edge(t, ps, j) && v <= Parent(j) <= 2 * v;
      }
    }
  }

  /** On the level above `p` some node is better than `prio`. */
  ghost predicate BetterAbove(t: HeapType, ps: seq<Priority>, prio: Priority, p: nat) {
    p == 0 || exists j :: LevelStart(Parent(p)) <= j <= 2 * LevelStart(Parent(p)) && j < |ps| && !Compare(t, prio, ps[j])
  }

  /** In a heap only the level above a position decides whether the search reaches it. */
  lemma ReachedFromAbove(t: HeapType, ps: seq<Priority>, prio: Priority, p: nat)
    requires Ordered(t, ps) && p < |ps|
    ensures Reaches(t, ps, prio, p) <==> BetterAbove(t, ps, prio, p)
  {
    if p > 0 {
      var u := LevelStart(Parent(p));
      LevelBounds(p);
      StartOfStart(Parent(p));
      forall s {:trigger IsStart(s)} | 0 <= s && IsStart(s) && 2 * s < p && NoneBetter(t, ps, prio, s)
        ensures NoneBetter(t, ps, prio, u)
      {
        if u < s {
          LevelOf(u, s);
        }
        NoneBetterBelow(t, ps, prio, s, u);
      }
      assert IsStart(u) && 2 * u < p;
      assert BetterAbove(t, ps, prio, p) <==> !NoneBetter(t, ps, prio, u);
    }
  }

  lemma {:induction false} StartOfStart(i: nat)
    ensures IsStart(LevelStart(i))
  {
    if i > 0 {
      StartOfStart(Parent(i));
      NextLevel(LevelStart(Parent(i)));
    }
  }

  // ---------------------------------------------------------------- the queue

  class HeapQueue<T(==)> {
    var typ: HeapType
    var heap: seq<Entry<T>>

    ghost predicate Valid()
      reads this
    {
      Ordered(typ, Values(heap))
    }

    constructor (typ: HeapType)
      ensures Valid() && heap == [] && this.typ == typ
    {
      this.typ, heap := typ, [];
    }

    /** `heapifyup`. */
    method HeapifyUp(start: nat)
      requires start < |heap| && UpReady(typ, Values(heap), start)
      modifies this`heap
      ensures Valid() && multiset(heap) == multiset(old(heap))
      ensures start == 0 || Compare(typ, old(heap)[Parent(start)].val, old(heap)[start].val) ==> heap == old(heap)
    {
      var index: nat := start;
      while index > 0 && !Compare(typ, heap[Parent(index)].val, heap[index].val)
        invariant index < |heap| && UpReady(typ, Values(heap), index) && multiset(heap) == multiset(old(heap))
        invariant (heap == old(heap) && index == start)
                  || (start > 0 && !Compare(typ, old(heap)[Parent(start)].val, old(heap)[start].val))
      {
        StepUp(typ, Values(heap), index);
        SwapValues(heap, Parent(index), index);
        heap := Swapped(heap, Parent(index), index);
        index := Parent(index);
      }
      EndUp(typ, Values(heap), index);
    }

    /** `heapifydown`; it stops at once when no child is better. */
    method HeapifyDown(index: nat)
      modifies this`heap
      ensures multiset(heap) == multiset(old(heap))
      ensures DownReady(typ, old(Values(heap)), index) ==> Valid()
      ensures Settled(typ, old(Values(heap)), index) ==> heap == old(heap)
      decreases |heap| - index
    {
      hide DownReady, Ordered, Values;
      var l, r := 2 * index + 1, 2 * index + 2;
      if l >= |heap|
         || (Compare(typ, heap[index].val, heap[l].val) && (r >= |heap| || Compare(typ, heap[index].val, heap[r].val))) {
        DownEnds(typ, heap, index);
        return;
      }
      var smaller := if r < |heap| && Compare(typ, heap[r].val, heap[l].val) then r else l;
      DownGoesOn(typ, heap, index, smaller);
      heap := Swapped(heap, index, smaller);
      HeapifyDown(smaller);
    }

    /** `insert`. */
    method Insert(el: T, prio: Priority)
      requires Valid()
      modifies this`heap
      ensures Valid() && multiset(heap) == multiset(old(heap)) + multiset{Entry(el, prio)}
      ensures old(heap) == [] || Compare(typ, old(heap)[Parent(|old(heap)|)].val, prio) ==>
                heap == old(heap) + [Entry(el, prio)]
    {
      PushReady(typ, Values(heap), prio);
      heap := heap + [Entry(el, prio)];
      assert Values(heap) == Values(old(heap)) + [prio];
      HeapifyUp(|heap| - 1);
    }

    /** `pop`: an entry with the smallest priority of an ascending heap, with the largest of a descending one. */
    method Pop() returns (best: T)
      requires Valid() && heap != []
      modifies this`heap
      ensures Valid() && old(heap) != [] && best == old(heap)[0].data
      ensures multiset(old(heap)) == multiset(heap) + multiset{old(heap)[0]}
      ensures typ == Ascending ==> forall e :: e in old(heap) ==> old(heap)[0].val <= e.val
      ensures typ == Descending ==> forall e :: e in old(heap) ==> old(heap)[0].val >= e.val
    {
      hide Ordered, DownReady;
      forall i | 0 <= i < |heap|
        ensures if typ == Ascending then heap[0].val <= heap[i].val else heap[0].val >= heap[i].val
      {
        RootBest(typ, Values(heap), i);
      }
      best := heap[0].data;
      RootReplaced(typ, Values(heap));
      LastFirst(heap, 0);
      heap := heap[0 := heap[|heap| - 1]][..|heap| - 1];
      assert Values(heap) == Values(old(heap))[0 := Values(old(heap))[|old(heap)| - 1]][..|old(heap)| - 1];
      HeapifyDown(0);
    }

    /** `remove_by_index`: the last element takes the place and only goes down. */
    method RemoveByIndex(index: nat)
      requires Valid() && index < |heap|
      modifies this`heap
      ensures multiset(old(heap)) == multiset(heap) + multiset{old(heap)[index]}
      ensures Valid() <==> StaysOrdered(typ, old(heap), index)
      ensures !Valid() ==> heap == old(heap)[index := old(heap)[|old(heap)| - 1]][..|old(heap)| - 1]
    {
      hide Ordered, DownReady, UpReady, Settled;
      ghost var heap0, ps := heap, Values(heap);
      LastFirst(heap, index);
      var tmp := heap[|heap| - 1];
      heap := heap[..|heap| - 1];
      if index == |heap| {
        LastTaken(typ, ps);
        assert Values(heap) == ps[..|ps| - 1];
        return;
      }
      heap := heap[index := tmp];
      assert heap == heap0[index := tmp][..|heap0| - 1];
      assert Values(heap) == ps[..|ps| - 1][index := ps[|ps| - 1]];
      LastMoved(typ, ps, index);
      LastBetter(typ, ps, index);
      HeapifyDown(index);
    }

    /** The loop of `remove`: level by level until `val` is found, or until a level has nothing better than
        `prio`. */
    method Find(val: T, prio: Priority) returns (found: Option<nat>)
      ensures found.Some? ==>
                found.value < |heap| && heap[found.value].data == val && Reaches(typ, Values(heap), prio, found.value)
      ensures found.Some? ==> forall j :: 0 <= j < found.value ==> heap[j].data != val
      ensures found.None? ==>
                forall p :: 0 <= p < |heap| && heap[p].data == val ==> !Reaches(typ, Values(heap), prio, p)
    {
      assert LevelStart(0) == 0;
      hide Compare, LevelStart;
      var shift, remain: nat, index: nat := 1, 1, 0;
      var all := true;
      ghost var ps := Values(heap);
      while index < |heap|
        invariant shift > 0 && remain > 0 && index + remain == 2 * shift - 1 && shift - 1 <= index
        invariant IsStart(shift - 1)
        invariant forall t {:trigger IsStart(t)} :: 0 <= t < shift - 1 && IsStart(t) ==> !NoneBetter(typ, ps, prio, t)
        invariant all <==> forall j {:trigger ps[j]} :: shift - 1 <= j < index && j < |ps| ==> Compare(typ, prio, ps[j])
        invariant forall j :: 0 <= j < index && j < |heap| ==> heap[j].data != val
        decreases |heap| - index
      {
        if heap[index].data == val {
          return Some(index);
        }
        if all && !Compare(typ, prio, heap[index].val) {
          assert !Compare(typ, prio, ps[index]);
          all := false;
        }
        remain := remain - 1;
        index := index + 1;
        if remain == 0 {
          if all {
            assert NoneBetter(typ, ps, prio, shift - 1);
            return None;
          }
          assert !NoneBetter(typ, ps, prio, shift - 1);
          LevelsBefore(typ, ps, prio, shift - 1);
          all := true;
          shift := 2 * shift;
          remain := shift;
        }
      }
      found := None;
    }

    /** `remove`: `found` is false when its assertion fails.  Otherwise the first entry with the value
        goes, at position `at`. */
    method Remove(val: T, prio: Priority) returns (found: bool, ghost at: nat)
      requires Valid()
      modifies this`heap
      ensures found <==>
              exists p :: 0 <= p < |old(heap)| && old(heap)[p].data == val && BetterAbove(typ, old(Values(heap)), prio, p)
      ensures !found ==> heap == old(heap)
      ensures found ==>
                at < |old(heap)| && old(heap)[at].data == val && forall j :: 0 <= j < at ==> old(heap)[j].data != val
      ensures found ==> multiset(old(heap)) == multiset(heap) + multiset{old(heap)[at]}
      ensures found ==> (Valid() <==> StaysOrdered(typ, old(heap), at))
    {
      forall p | 0 <= p < |heap|
        ensures Reaches(typ, Values(heap), prio, p) <==> BetterAbove(typ, Values(heap), prio, p)
      {
        ReachedFromAbove(typ, Values(heap), prio, p);
      }
      hide Reaches, BetterAbove, Ordered, StaysOrdered;
      var index := Find(val, prio);
      found, at := index.Some?, 0;
      if found {
        at := index.value;
        RemoveByIndex(index.value);
      }
    }
  }

  /** The last element can take the place of the one at `index`: it is not better than the parent there. */
  ghost predicate StaysOrdered<T>(t: HeapType, heap: seq<Entry<T>>, index: nat)
    requires index < |heap|
  {
    index == 0 || index == |heap| - 1 || Compare(t, heap[Parent(index)].val, heap[|heap| - 1].val)
  }

  lemma DownEnds<T>(t: HeapType, heap: seq<Entry<T>>, k: nat)
    requires 2 * k + 1 < |heap| ==> Compare(t, heap[k].val, heap[2 * k + 1].val)
    requires 2 * k + 2 < |heap| ==> Compare(t, heap[k].val, heap[2 * k + 2].val)
    ensures DownReady(t, Values(heap), k) ==> Ordered(t, Values(heap))
  {
    if DownReady(t, Values(heap), k) {
      EndDown(t, Values(heap), k);
    }
  }

  lemma DownGoesOn<T>(t: HeapType, heap: seq<Entry<T>>, k: nat, c: nat)
    requires (c == 2 * k + 1 || c == 2 * k + 2) && c < |heap| && !Compare(t, heap[k].val, heap[c].val)
    requires 2 * k + 1 < |heap| ==> Compare(t, heap[c].val, heap[2 * k + 1].val)
    requires 2 * k + 2 < |heap| ==> Compare(t, heap[c].val, heap[2 * k + 2].val)
    ensures DownReady(t, Values(heap), k) ==> DownReady(t, Values(Swapped(heap, k, c)), c)
    ensures multiset(Swapped(heap, k, c)) == multiset(heap) && !Settled(t, Values(heap), k)
  {
    SwapValues(heap, k, c);
    if DownReady(t, Values(heap), k) {
      StepDown(t, Values(heap), k, c);
    }
  }

  /** An element that is better than its new parent stays where it was put, out of order. */
  lemma LastBetter(t: HeapType, ps: seq<Priority>, k: nat)
    requires Ordered(t, ps) && k < |ps| - 1
    ensures var r := ps[..|ps| - 1][k := ps[|ps| - 1]];
            k > 0 && !Compare(t, r[Parent(k)], r[k]) ==> Settled(t, r, k) && !Ordered(t, r)
  {
    var r := ps[..|ps| - 1][k := ps[|ps| - 1]];
    if k > 0 && !Compare(t, r[Parent(k)], r[k]) {
      assert !Edge(t, r, k);
      forall i | 0 < i < |r| && Parent(i) == k ensures Compare(t, r[k], r[i]) {
        assert Edge(t, ps, i) && Edge(t, ps, k);
      }
      assert 2 * k + 1 < |r| ==> Parent(2 * k + 1) == k;
      assert 2 * k + 2 < |r| ==> Parent(2 * k + 2) == k;
    }
  }

  /** A heap of three elements, and of six. */
  method ThreeElements() returns (q: HeapQueue<int>)
    ensures fresh(q) && q.Valid() && q.typ == Ascending
    ensures q.heap == [Entry(1, 1.0), Entry(10, 10.0), Entry(2, 2.0)]
  {
    hide Ordered, Values;
    q := new HeapQueue(Ascending);
    q.Insert(1, 1.0);
    assert q.heap == [Entry(1, 1.0)];
    q.Insert(10, 10.0);
    q.Insert(2, 2.0);
  }

  method SixElements() returns (q: HeapQueue<int>)
    ensures fresh(q) && q.Valid() && q.typ == Ascending
    ensures q.heap == [Entry(1, 1.0), Entry(10, 10.0), Entry(2, 2.0), Entry(11, 11.0), Entry(12, 12.0), Entry(3, 3.0)]
  {
    hide Ordered, Values;
    q := ThreeElements();
    q.Insert(11, 11.0);
    q.Insert(12, 12.0);
    q.Insert(3, 3.0);
  }

  /** Removing 11 from it puts 3 below 10. */
  method RemovalOutOfOrder() returns (heap: seq<Entry<int>>)
    ensures heap == [Entry(1, 1.0), Entry(10, 10.0), Entry(2, 2.0), Entry(3, 3.0), Entry(12, 12.0)]
    ensures !Ordered(Ascending, Values(heap))
  {
    hide Ordered, Values;
    var q := SixElements();
    q.RemoveByIndex(3);
    assert !q.Valid();
    heap := q.heap;
  }

  /** Nothing is a level start strictly between two levels. */
  lemma LevelsBefore(t: HeapType, ps: seq<Priority>, prio: Priority, s: nat)
    requires IsStart(s) && !NoneBetter(t, ps, prio, s)
    requires forall u {:trigger IsStart(u)} :: 0 <= u < s && IsStart(u) ==> !NoneBetter(t, ps, prio, u)
    ensures IsStart(2 * s + 1)
    ensures forall u {:trigger IsStart(u)} :: 0 <= u < 2 * s + 1 && IsStart(u) ==> !NoneBetter(t, ps, prio, u)
  {
    NextLevel(s);
    forall u {:trigger IsStart(u)} | s < u < 2 * s + 1 ensures !IsStart(u) {
      LevelOf(s, u);
    }
  }

  /** The last element takes the place of the one at `index`. */
  lemma LastFirst<T>(heap: seq<Entry<T>>, index: nat)
    requires index < |heap|
    ensures var r := heap[index := heap[|heap| - 1]][..|heap| - 1];
            multiset(heap) == multiset(r) + multiset{heap[index]}
    ensures index == |heap| - 1 ==> heap[index := heap[|heap| - 1]][..|heap| - 1] == heap[..|heap| - 1]
  {
    var u := heap[index := heap[|heap| - 1]];
    assert u == u[..|heap| - 1] + [u[|heap| - 1]];
    assert heap == heap[..|heap| - 1] + [heap[|heap| - 1]];
  }
}
