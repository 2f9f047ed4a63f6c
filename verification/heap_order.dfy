/**
  Heap order on a vector of priorities (predicates/queue/heap_implementation.hpp): what one swap of
  `heapifyup` and `heapifydown` does to it.
*/
module HeapOrder {

  /** Integer and float priorities alike; rounding plays no part. */
  type Priority = real

  datatype HeapType = Ascending | Descending

  /** `HEAP_COMPARE`. */
  predicate Compare(t: HeapType, a: Priority, b: Priority) {
    if t == Ascending then a <= b else a >= b
  }

  function Parent(i: nat): (p: nat)
    requires i > 0
    ensures p < i && (i == 2 * p + 1 || i == 2 * p + 2)
  {
    (i - 1) / 2
  }

  predicate Edge(t: HeapType, ps: seq<Priority>, i: nat)
    requires 0 < i < |ps|
  {
    Compare(t, ps[Parent(i)], ps[i])
  }

  /** Every node is at least as good as its children. */
  ghost predicate Ordered(t: HeapType, ps: seq<Priority>) {
    forall i {:trigger Edge(t, ps, i)} :: 0 < i < |ps| ==> Edge(t, ps, i)
  }

  /** The children of `k` are not better than the parent of `k`. */
  ghost predicate Bridged(t: HeapType, ps: seq<Priority>, k: nat) {
    forall i {:trigger Edge(t, ps, i)} :: 0 < i < |ps| && Parent(i) == k && k > 0 ==> Compare(t, ps[Parent(k)], ps[i])
  }

  /** Only the node `k` may be better than its parent. */
  ghost predicate UpReady(t: HeapType, ps: seq<Priority>, k: nat) {
    && (forall i {:trigger Edge(t, ps, i)} :: 0 < i < |ps| && i != k ==> Edge(t, ps, i))
    && Bridged(t, ps, k)
  }

  /** Only the node `k` may be worse than its children. */
  ghost predicate DownReady(t: HeapType, ps: seq<Priority>, k: nat) {
    && (forall i {:trigger Edge(t, ps, i)} :: 0 < i < |ps| && Parent(i) != k ==> Edge(t, ps, i))
    && Bridged(t, ps, k)
  }

  /** No child of `k` is better than `k`. */
  ghost predicate Settled(t: HeapType, ps: seq<Priority>, k: nat) {
    && k < |ps|
    && (2 * k + 1 < |ps| ==> Compare(t, ps[k], ps[2 * k + 1]))
    && (2 * k + 2 < |ps| ==> Compare(t, ps[k], ps[2 * k + 2]))
  }

  function Swapped<T>(s: seq<T>, i: nat, j: nat): (r: seq<T>)
    requires i < |s| && j < |s|
    ensures |r| == |s| && r[i] == s[j] && r[j] == s[i] && forall k :: 0 <= k < |s| && k != i && k != j ==> r[k] == s[k]
  {
    s[i := s[j]][j := s[i]]
  }

  lemma StepUp(t: HeapType, ps: seq<Priority>, k: nat)
    requires UpReady(t, ps, k) && 0 < k < |ps| && !Edge(t, ps, k)
    ensures UpReady(t, Swapped(ps, Parent(k), k), Parent(k))
  {
    var p := Parent(k);
    var r := Swapped(ps, p, k);
    forall i | 0 < i < |r| && i != p ensures Edge(t, r, i) {
      assert Edge(t, ps, i) || i == k;
    }
    forall i | 0 < i < |r| && Parent(i) == p && p > 0 ensures Compare(t, r[Parent(p)], r[i]) {
      assert Edge(t, ps, p) && (Edge(t, ps, i) || i == k);
    }
  }

  lemma EndUp(t: HeapType, ps: seq<Priority>, k: nat)
    requires UpReady(t, ps, k) && (0 < k < |ps| ==> Edge(t, ps, k))
    ensures Ordered(t, ps)
  {
  }

  /** `c` is a child of `k` that is not worse than its sibling, and strictly better than `k` or equal. */
  lemma StepDown(t: HeapType, ps: seq<Priority>, k: nat, c: nat)
    requires DownReady(t, ps, k) && 0 < c < |ps| && Parent(c) == k
    requires Compare(t, ps[c], ps[k])
    requires 2 * k + 1 < |ps| ==> Compare(t, ps[c], ps[2 * k + 1])
    requires 2 * k + 2 < |ps| ==> Compare(t, ps[c], ps[2 * k + 2])
    ensures DownReady(t, Swapped(ps, k, c), c)
  {
    var r := Swapped(ps, k, c);
    forall i | 0 < i < |r| && Parent(i) != c ensures Edge(t, r, i) {
      assert Edge(t, ps, c) || !Edge(t, ps, c);
      assert Edge(t, ps, i) || Parent(i) == k;
    }
    forall i | 0 < i < |r| && Parent(i) == c && c > 0 ensures Compare(t, r[Parent(c)], r[i]) {
      assert Edge(t, ps, i);
    }
  }

  lemma EndDown(t: HeapType, ps: seq<Priority>, k: nat)
    requires DownReady(t, ps, k)
    requires 2 * k + 1 < |ps| ==> Compare(t, ps[k], ps[2 * k + 1])
    requires 2 * k + 2 < |ps| ==> Compare(t, ps[k], ps[2 * k + 2])
    ensures Ordered(t, ps)
  {
    forall i | 0 < i < |ps| ensures Edge(t, ps, i) {
      if Parent(i) == k {
        assert i == 2 * k + 1 || i == 2 * k + 2;
      }
    }
  }

  /** Nothing in a heap is better than its root: smaller in an ascending one, larger in a descending one. */
  lemma {:induction false} RootBest(t: HeapType, ps: seq<Priority>, i: nat)
    requires Ordered(t, ps) && i < |ps|
    ensures Compare(t, ps[0], ps[i])
    ensures t == Ascending ==> ps[0] <= ps[i]
    ensures t == Descending ==> ps[0] >= ps[i]
  {
    if i > 0 {
      RootBest(t, ps, Parent(i));
      assert Edge(t, ps, i);
    }
  }

  /** A value put at the end. */
  lemma PushReady(t: HeapType, ps: seq<Priority>, v: Priority)
    requires Ordered(t, ps)
    ensures UpReady(t, ps + [v], |ps|)
  {
    var r := ps + [v];
    forall i | 0 < i < |r| && i != |ps| ensures Edge(t, r, i) {
      assert Edge(t, ps, i);
    }
    forall i | 0 < i < |r| ensures Parent(i) != |ps| {
      assert Parent(i) < i;
    }
  }

  /** The last value moved to the root. */
  lemma RootReplaced(t: HeapType, ps: seq<Priority>)
    requires Ordered(t, ps) && ps != []
    ensures var r := ps[0 := ps[|ps| - 1]][..|ps| - 1]; DownReady(t, r, 0)
  {
    var r := ps[0 := ps[|ps| - 1]][..|ps| - 1];
    forall i | 0 < i < |r| && Parent(i) != 0 ensures Edge(t, r, i) {
      assert Edge(t, ps, i);
    }
  }

  /** The last value moved to position `k`: it is to go up if it is not worse than its new parent, and
      down otherwise. */
  lemma LastMoved(t: HeapType, ps: seq<Priority>, k: nat)
    requires Ordered(t, ps) && k < |ps| - 1
    ensures var r := ps[..|ps| - 1][k := ps[|ps| - 1]];
            && (k > 0 && Compare(t, r[k], r[Parent(k)]) ==> UpReady(t, r, k))
            && (k == 0 || Compare(t, r[Parent(k)], r[k]) ==> DownReady(t, r, k))
  {
    var r := ps[..|ps| - 1][k := ps[|ps| - 1]];
    forall i | 0 < i < |r| && i != k && Parent(i) != k ensures Edge(t, r, i) {
      assert Edge(t, ps, i);
    }
    forall i | 0 < i < |r| && Parent(i) == k && k > 0 ensures Compare(t, r[Parent(k)], r[i]) {
      assert Edge(t, ps, i) && Edge(t, ps, k);
    }
    if k > 0 && Compare(t, r[k], r[Parent(k)]) {
      forall i | 0 < i < |r| && Parent(i) == k ensures Edge(t, r, i) {
        assert Edge(t, ps, i) && Edge(t, ps, k);
      }
    }
    if k > 0 && Compare(t, r[Parent(k)], r[k]) {
      assert Edge(t, r, k);
    }
  }

  /** Taking the last value away. */
  lemma LastTaken(t: HeapType, ps: seq<Priority>)
    requires Ordered(t, ps) && ps != []
    ensures Ordered(t, ps[..|ps| - 1])
  {
    var r := ps[..|ps| - 1];
    forall i | 0 < i < |r| ensures Edge(t, r, i) {
      assert Edge(t, ps, i);
    }
  }
}
