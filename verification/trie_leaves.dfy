/**
  The leaves of a trie: the leaf list, each leaf's tuple and reference count, and how they stay in
  agreement with the nodes.
*/
module TrieLeaves {
  import opened Common
  import opened Tuples
  import opened TrieShape
  import opened TrieContents

  /** A leaf's tuple and reference count. */
  datatype Rec = Rec(tuple: seq<Value>, count: int)

  type Recs = map<NodeId, Rec>

  ghost predicate LeafOk(nodes: Heap, path: Paths, types: seq<Type>, recs: Recs, n: NodeId)
    requires n in recs
  {
    && n in nodes && n in path && nodes[n].kids.Leaf?
    && HasTypes(recs[n].tuple, types) && path[n] == Flat(recs[n].tuple)
  }

  /** The leaf list holds each leaf once, and a leaf's path is its tuple. */
  ghost predicate LeavesOk(nodes: Heap, path: Paths, types: seq<Type>, leaves: seq<NodeId>, recs: Recs) {
    && NoDup(leaves) && (forall n :: n in leaves <==> n in recs)
    && (forall n :: n in nodes && nodes[n].kids.Leaf? ==> n in recs)
    && (forall n {:trigger LeafOk(nodes, path, types, recs, n)} :: n in recs ==> LeafOk(nodes, path, types, recs, n))
  }

  ghost function ContentsOf(leaves: seq<NodeId>, recs: Recs): (c: seq<Entry>)
    requires forall n :: n in leaves ==> n in recs
    ensures |c| == |leaves|
  {
    seq(|leaves|, i requires 0 <= i < |leaves| => Entry(recs[leaves[i]].tuple, recs[leaves[i]].count))
  }

  /** Different leaves hold different tuples. */
  lemma LeavesDistinct(nodes: Heap, path: Paths, types: seq<Type>, hash: Key -> nat, hole: Option<NodeId>,
      leaves: seq<NodeId>, recs: Recs)
    requires Shape(nodes, path, types, hash, hole) && LeavesOk(nodes, path, types, leaves, recs)
    ensures Distinct(ContentsOf(leaves, recs))
  {
    var c := ContentsOf(leaves, recs);
    forall i, j | 0 <= i < j < |c| ensures Apart(c, i, j) {
      assert Differ(leaves, i, j);
      var n, m := leaves[i], leaves[j];
      assert LeafOk(nodes, path, types, recs, n) && LeafOk(nodes, path, types, recs, m);
      assert SamePath(path, n, m) ==> n == m;
    }
  }

  /** If no child of `p` goes on with the next key of a tuple, the tuple is not stored. */
  lemma MissingChild(nodes: Heap, path: Paths, types: seq<Type>, hash: Key -> nat, leaves: seq<NodeId>, recs: Recs,
      p: NodeId, tuple: seq<Value>, rest: seq<Value>)
    requires Shape(nodes, path, types, hash, None) && LeavesOk(nodes, path, types, leaves, recs)
    requires p in nodes && rest != [] && path[p] + Flat(rest) == Flat(tuple)
    requires forall s :: s in Siblings(nodes[p].kids) && s in nodes ==> nodes[s].data != FirstKey(rest[0])
    ensures !Stored(ContentsOf(leaves, recs), tuple)
  {
    FlatStep(rest);
    forall i | 0 <= i < |leaves| ensures recs[leaves[i]].tuple != tuple {
      var n := leaves[i];
      assert LeafOk(nodes, path, types, recs, n);
      if recs[n].tuple == tuple {
        assert path[p] < path[n] && path[n][|path[p]|] == Flat(rest)[0];
        var c := ChildOnPath(nodes, path, types, hash, None, p, n);
        assert false;
      }
    }
  }

  /** A leaf reached with the whole tuple read is the leaf of that tuple. */
  lemma LeafIsTuple(nodes: Heap, path: Paths, types: seq<Type>, leaves: seq<NodeId>, recs: Recs,
      p: NodeId, tuple: seq<Value>)
    requires LeavesOk(nodes, path, types, leaves, recs) && p in recs && p in path
    requires HasTypes(tuple, types) && path[p] == Flat(tuple)
    ensures recs[p].tuple == tuple && Stored(ContentsOf(leaves, recs), tuple)
  {
    assert LeafOk(nodes, path, types, recs, p);
    FlatInjective(recs[p].tuple, tuple, types);
    var i :| 0 <= i < |leaves| && leaves[i] == p;
    assert ContentsOf(leaves, recs)[i].tuple == tuple;
  }

  /** The count of a leaf is the count of its tuple. */
  lemma CountOfLeaf(leaves: seq<NodeId>, recs: Recs, n: NodeId)
    requires forall m :: m in leaves ==> m in recs
    requires Distinct(ContentsOf(leaves, recs)) && n in leaves
    ensures Count(ContentsOf(leaves, recs), recs[n].tuple) == recs[n].count
    ensures Stored(ContentsOf(leaves, recs), recs[n].tuple)
  {
    var i :| 0 <= i < |leaves| && leaves[i] == n;
    CountAt(ContentsOf(leaves, recs), i);
    assert ContentsOf(leaves, recs)[i].tuple == recs[n].tuple;
  }

  // ---------------------------------------------------------------- changes to the leaves

  /** `add_count`: the count of one leaf changes. */
  function Recounted(recs: Recs, n: NodeId, many: int): Recs
    requires n in recs
  {
    recs[n := recs[n].(count := recs[n].count + many)]
  }

  /** What `check_insert` does to the leaves. */
  ghost predicate Checked(leaves: seq<NodeId>, recs: Recs, leaves': seq<NodeId>, recs': Recs,
      tuple: seq<Value>, many: int, noFields: bool, node: Option<NodeId>, found: bool)
  {
    if found then
      && node.Some? && node.value in recs && recs[node.value].tuple == tuple
      && leaves' == leaves && recs' == Recounted(recs, node.value, many)
    else if many < 0 && !noFields then
      node.None? && leaves' == leaves && recs' == recs
    else
      && node.Some? && node.value !in recs
      && leaves' == leaves + [node.value] && recs' == recs[node.value := Rec(tuple, many)]
  }

  /** Changing one count. */
  lemma CountChanged(nodes: Heap, path: Paths, types: seq<Type>, leaves: seq<NodeId>, recs: Recs, n: NodeId, many: int,
      recs': Recs)
    requires LeavesOk(nodes, path, types, leaves, recs) && n in recs && Distinct(ContentsOf(leaves, recs))
    requires recs' == Recounted(recs, n, many)
    ensures LeavesOk(nodes, path, types, leaves, recs')
    ensures ContentsOf(leaves, recs') == Bump(ContentsOf(leaves, recs), recs[n].tuple, many)
  {
    forall m | m in recs' ensures LeafOk(nodes, path, types, recs', m) {
      assert LeafOk(nodes, path, types, recs, m);
    }
    var i :| 0 <= i < |leaves| && leaves[i] == n;
    BumpAt(ContentsOf(leaves, recs), i, many);
    forall j | 0 <= j < |leaves| ensures leaves[j] == n ==> j == i {
      if leaves[j] == n {
        SamePosition(leaves, i, j);
      }
    }
    assert ContentsOf(leaves, recs') == ContentsOf(leaves, recs)[i := Entry(recs[n].tuple, recs[n].count + many)];
  }

  lemma LeafAdded(nodes: Heap, path: Paths, types: seq<Type>, leaves: seq<NodeId>, recs: Recs,
      p: NodeId, tuple: seq<Value>, many: int, nodes': Heap)
    requires LeavesOk(nodes, path, types, leaves, recs) && p in nodes && p in path && p !in recs
    requires HasTypes(tuple, types) && path[p] == Flat(tuple) && nodes' == nodes[p := nodes[p].(kids := Leaf)]
    ensures LeavesOk(nodes', path, types, leaves + [p], recs[p := Rec(tuple, many)])
    ensures ContentsOf(leaves + [p], recs[p := Rec(tuple, many)]) == ContentsOf(leaves, recs) + [Entry(tuple, many)]
  {
    var recs' := recs[p := Rec(tuple, many)];
    forall n | n in recs' ensures LeafOk(nodes', path, types, recs', n) {
      assert n != p ==> LeafOk(nodes, path, types, recs, n);
    }
    NoDupOne(p);
    NoDupAppend(leaves, [p]);
  }

  lemma NoDupOne(p: NodeId)
    ensures NoDup([p])
  {
  }

  /** Taking one leaf out of the leaf list. */
  lemma LeafRemoved(nodes: Heap, path: Paths, types: seq<Type>, leaves: seq<NodeId>, recs: Recs, n: NodeId,
      nodes': Heap)
    requires LeavesOk(nodes, path, types, leaves, recs) && n in recs && n in nodes && Distinct(ContentsOf(leaves, recs))
    requires nodes' == nodes[n := nodes[n].(kids := Chain([]))]
    ensures LeavesOk(nodes', path, types, Without(leaves, n), recs - {n})
    ensures ContentsOf(Without(leaves, n), recs - {n}) == Drop(ContentsOf(leaves, recs), recs[n].tuple)
  {
    WithoutIs(leaves, n);
    forall m | m in recs - {n} ensures LeafOk(nodes', path, types, recs - {n}, m) {
      assert LeafOk(nodes, path, types, recs, m);
    }
    ContentsWithout(leaves, recs, n);
  }

  lemma ContentsWithout(leaves: seq<NodeId>, recs: Recs, n: NodeId)
    requires NoDup(leaves) && n in leaves && forall m :: m in leaves ==> m in recs
    requires Distinct(ContentsOf(leaves, recs))
    ensures forall m :: m in Without(leaves, n) ==> m in recs - {n}
    ensures ContentsOf(Without(leaves, n), recs - {n}) == Drop(ContentsOf(leaves, recs), recs[n].tuple)
  {
    WithoutIs(leaves, n);
    var i :| 0 <= i < |leaves| && leaves[i] == n;
    WithoutAt(leaves, i);
    DropAt(ContentsOf(leaves, recs), i);
    var c, c' := ContentsOf(leaves, recs), ContentsOf(Without(leaves, n), recs - {n});
    forall j | 0 <= j < |c'| ensures c'[j] == (c[..i] + c[i + 1..])[j] {
      assert Without(leaves, n)[j] == leaves[if j < i then j else j + 1];
    }
  }

  // ---------------------------------------------------------------- changes to other nodes

  lemma AddedLeaves(nodes: Heap, path: Paths, types: seq<Type>, leaves: seq<NodeId>, recs: Recs,
      p: NodeId, c: NodeId, node: TrieNode, kids: Kids, nodes': Heap, path': Paths)
    requires LeavesOk(nodes, path, types, leaves, recs) && Added(nodes, path, p, c, node, kids, nodes', path')
    requires !nodes[p].kids.Leaf?
    ensures LeavesOk(nodes', path', types, leaves, recs)
  {
    forall n | n in recs ensures LeafOk(nodes', path', types, recs, n) {
      assert LeafOk(nodes, path, types, recs, n);
    }
  }

  lemma RemovedLeaves(nodes: Heap, path: Paths, types: seq<Type>, leaves: seq<NodeId>, recs: Recs,
      p: NodeId, n: NodeId, kids: Kids, nodes': Heap)
    requires LeavesOk(nodes, path, types, leaves, recs) && Removed(nodes, p, n, kids, nodes')
    requires !nodes[n].kids.Leaf? && !nodes[p].kids.Leaf?
    ensures LeavesOk(nodes', path - {n}, types, leaves, recs)
  {
    forall m | m in recs ensures LeafOk(nodes', path - {n}, types, recs, m) {
      assert LeafOk(nodes, path, types, recs, m);
    }
  }

  lemma RehashLeaves(nodes: Heap, path: Paths, types: seq<Type>, leaves: seq<NodeId>, recs: Recs, p: NodeId,
      nodes': Heap)
    requires LeavesOk(nodes, path, types, leaves, recs) && nodes'.Keys == nodes.Keys
    requires forall n :: n in nodes ==> nodes'[n].kids.Leaf? == nodes[n].kids.Leaf?
    ensures LeavesOk(nodes', path, types, leaves, recs)
  {
    forall n | n in recs ensures LeafOk(nodes', path, types, recs, n) {
      assert LeafOk(nodes, path, types, recs, n);
    }
  }
}
