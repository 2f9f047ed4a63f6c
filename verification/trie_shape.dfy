/**
  The shape of a trie in memory (predicates/db/trie.hpp): nodes with parent pointers, child lists
  that may have become hash tables, and the invariant that all operations keep.
*/
module TrieShape {
  import opened Common
  import opened Tuples

  type NodeId = nat

  const ROOT: NodeId := 0

  /** What a node's `child` pointer leads to: the tuple's leaf, a list of children, or a hash table. */
  datatype Kids = Leaf | Chain(ids: seq<NodeId>) | Table(buckets: seq<seq<NodeId>>, total: nat)

  /** `bucket` is the back pointer of a node that sits in its parent's hash table. */
  datatype TrieNode = TrieNode(parent: NodeId, data: Key, kids: Kids, bucket: nat)

  type Heap = map<NodeId, TrieNode>

  /** For each node the keys on the way from the root. */
  type Paths = map<NodeId, seq<Key>>

  /** All children, bucket after bucket. */
  function Siblings(kids: Kids): seq<NodeId> {
    match kids
    case Leaf => []
    case Chain(ids) => ids
    case Table(buckets, _) => Concat(buckets)
  }

  // ---------------------------------------------------------------- hash buckets

  lemma {:induction false} ConcatMember(buckets: seq<seq<NodeId>>, c: NodeId)
    ensures c in Concat(buckets) <==> exists b :: 0 <= b < |buckets| && c in buckets[b]
  {
    if buckets != [] {
      ConcatMember(buckets[1..], c);
      if c in Concat(buckets[1..]) {
        var b :| 0 <= b < |buckets[1..]| && c in buckets[1..][b];
        assert c in buckets[b + 1];
      }
      if exists b :: 0 <= b < |buckets| && c in buckets[b] {
        var b :| 0 <= b < |buckets| && c in buckets[b];
        assert b > 0 ==> c in buckets[1..][b - 1];
      }
    }
  }

  /** `ids` without the node `c`. */
  function Without(ids: seq<NodeId>, c: NodeId): seq<NodeId> {
    if ids == [] then [] else if ids[0] == c then ids[1..] else [ids[0]] + Without(ids[1..], c)
  }

  lemma {:induction false} WithoutAt(ids: seq<NodeId>, i: nat)
    requires NoDup(ids) && i < |ids|
    ensures Without(ids, ids[i]) == ids[..i] + ids[i + 1..]
  {
    if i > 0 {
      var rest := ids[1..];
      NoDupTail(ids);
      assert rest[i - 1] == ids[i] && ids[0] != ids[i];
      WithoutAt(rest, i - 1);
      assert [ids[0]] + rest[..i - 1] == ids[..i] && rest[i..] == ids[i + 1..];
    }
  }

  lemma WithoutIs(ids: seq<NodeId>, c: NodeId)
    requires NoDup(ids) && c in ids
    ensures NoDup(Without(ids, c)) && |Without(ids, c)| == |ids| - 1
    ensures forall x :: x in Without(ids, c) <==> x != c && x in ids
  {
    var i :| 0 <= i < |ids| && ids[i] == c;
    WithoutAt(ids, i);
    assert ids == ids[..i] + [c] + ids[i + 1..];
    NoDupRemove(ids[..i], c, ids[i + 1..]);
  }

  /** Putting a new node in front of one bucket. */
  lemma InsertInBucket(buckets: seq<seq<NodeId>>, b: nat, c: NodeId)
    requires b < |buckets| && NoDup(Concat(buckets)) && c !in Concat(buckets)
    ensures var buckets' := buckets[b := [c] + buckets[b]];
            && NoDup(Concat(buckets')) && |Concat(buckets')| == |Concat(buckets)| + 1
            && forall x :: x in Concat(buckets') <==> x == c || x in Concat(buckets)
  {
    var pre, mid, post := Concat(buckets[..b]), buckets[b], Concat(buckets[b + 1..]);
    ConcatUpdate(buckets, b, [c] + mid);
    assert pre + ([c] + mid) + post == pre + [c] + (mid + post);
    assert pre + mid + post == pre + (mid + post);
    NoDupInsert(pre, c, mid + post);
  }

  /** Taking a node out of its bucket. */
  lemma RemoveFromBucket(buckets: seq<seq<NodeId>>, b: nat, c: NodeId)
    requires b < |buckets| && NoDup(Concat(buckets)) && c in buckets[b]
    ensures var buckets' := buckets[b := Without(buckets[b], c)];
            && NoDup(Concat(buckets')) && |Concat(buckets')| == |Concat(buckets)| - 1
            && forall x :: x in Concat(buckets') <==> x != c && x in Concat(buckets)
  {
    var pre, mid, post := Concat(buckets[..b]), buckets[b], Concat(buckets[b + 1..]);
    ConcatUpdate(buckets, b, Without(mid, c));
    NoDupMiddle(pre, mid, post);
    var i :| 0 <= i < |mid| && mid[i] == c;
    WithoutAt(mid, i);
    assert pre + mid + post == (pre + mid[..i]) + [c] + (mid[i + 1..] + post);
    NoDupRemove(pre + mid[..i], c, mid[i + 1..] + post);
    assert pre + Without(mid, c) + post == (pre + mid[..i]) + (mid[i + 1..] + post);
  }

  // ---------------------------------------------------------------- one node

  /** A non-root node continues its parent's path by its datum and is one of its parent's children. */
  ghost predicate UpOk(nodes: Heap, path: Paths, n: NodeId)
    requires n in nodes && path.Keys == nodes.Keys
  {
    if n == ROOT then path[n] == []
    else
      && nodes[n].parent in nodes
      && path[n] == path[nodes[n].parent] + [nodes[n].data]
      && n in Siblings(nodes[nodes[n].parent].kids)
  }

  ghost predicate ChildOf(nodes: Heap, p: NodeId, c: NodeId) {
    c in nodes && c != ROOT && nodes[c].parent == p
  }

  /** A node in a hash table sits in the bucket of its datum, and its back pointer says so. */
  ghost predicate BucketOk(nodes: Heap, hash: Key -> nat, buckets: seq<seq<NodeId>>, b: nat) {
    b < |buckets| && forall c :: c in buckets[b] ==>
      c in nodes && nodes[c].bucket == b && b == hash(nodes[c].data) % |buckets|
  }

  ghost predicate TableOk(nodes: Heap, hash: Key -> nat, kids: Kids) {
    kids.Table? ==>
      && kids.total == |Concat(kids.buckets)| && kids.total > 0
      && forall b :: 0 <= b < |kids.buckets| ==> BucketOk(nodes, hash, kids.buckets, b)
  }

  ghost predicate KidsOk(nodes: Heap, hash: Key -> nat, p: NodeId)
    requires p in nodes
  {
    && NoDup(Siblings(nodes[p].kids))
    && (forall c :: c in Siblings(nodes[p].kids) ==> ChildOf(nodes, p, c))
    && TableOk(nodes, hash, nodes[p].kids)
  }

  /** A leaf ends a complete word; an inner node other than the root has children. */
  ghost predicate WordOk(nodes: Heap, path: Paths, types: seq<Type>, hole: Option<NodeId>, n: NodeId)
    requires n in nodes && path.Keys == nodes.Keys
  {
    && Residual(types, path[n]).Some?
    && (nodes[n].kids.Leaf? ==> Residual(types, path[n]) == Some([]))
    && (nodes[n].kids.Leaf? || n == ROOT || hole == Some(n) || Siblings(nodes[n].kids) != [])
  }

  ghost predicate SamePath(path: Paths, n: NodeId, m: NodeId) {
    n in path && m in path && path[n] == path[m]
  }

  /** The trie is well shaped, except that the node `hole` may be without children. */
  ghost predicate Shape(nodes: Heap, path: Paths, types: seq<Type>, hash: Key -> nat, hole: Option<NodeId>) {
    && ROOT in nodes && path.Keys == nodes.Keys
    && (forall n, m {:trigger SamePath(path, n, m)} :: SamePath(path, n, m) ==> n == m)
    && (forall n {:trigger UpOk(nodes, path, n)} :: n in nodes ==> UpOk(nodes, path, n))
    && (forall n {:trigger KidsOk(nodes, hash, n)} :: n in nodes ==> KidsOk(nodes, hash, n))
    && (forall n {:trigger WordOk(nodes, path, types, hole, n)} :: n in nodes ==> WordOk(nodes, path, types, hole, n))
  }

  // ---------------------------------------------------------------- what the shape means

  lemma PrefixOfInit(a: seq<Key>, b: seq<Key>, x: Key)
    ensures a < b + [x] ==> a <= b
  {
  }

  lemma PrefixTrans(a: seq<Key>, b: seq<Key>, c: seq<Key>)
    ensures a <= b && b <= c ==> a <= c && (|a| < |b| ==> c[|a|] == b[|a|])
  {
  }

  /** A node whose path properly extends that of `p` hangs below a child of `p` on the way. */
  lemma {:induction false} ChildOnPath(nodes: Heap, path: Paths, types: seq<Type>, hash: Key -> nat,
      hole: Option<NodeId>, p: NodeId, n: NodeId)
    returns (c: NodeId)
    requires Shape(nodes, path, types, hash, hole) && p in nodes && n in nodes
    requires path[p] < path[n]
    ensures c in Siblings(nodes[p].kids) && c in nodes
    ensures path[c] <= path[n] && path[c] == path[p] + [nodes[c].data]
    ensures nodes[c].data == path[n][|path[p]|]
    decreases |path[n]|
  {
    assert UpOk(nodes, path, n) && UpOk(nodes, path, ROOT);
    var q := nodes[n].parent;
    PrefixOfInit(path[p], path[q], nodes[n].data);
    if |path[q]| == |path[p]| {
      assert SamePath(path, q, p);
      c := n;
    } else {
      c := ChildOnPath(nodes, path, types, hash, hole, p, q);
      PrefixTrans(path[c], path[q], path[n]);
      PrefixTrans(path[p], path[q], path[n]);
    }
  }

  /** A child of a well-shaped node, and how its path goes on. */
  lemma ChildPath(nodes: Heap, path: Paths, types: seq<Type>, hash: Key -> nat, hole: Option<NodeId>, p: NodeId,
      c: NodeId)
    requires Shape(nodes, path, types, hash, hole) && p in nodes && c in Siblings(nodes[p].kids)
    ensures c in nodes && c != ROOT && nodes[c].parent == p && path[c] == path[p] + [nodes[c].data]
    ensures Residual(types, path[p]).Some?
            && Eat(Residual(types, path[p]).value, nodes[c].data) == Residual(types, path[c])
    ensures Residual(types, path[c]).Some?
  {
    assert KidsOk(nodes, hash, p);
    assert ChildOf(nodes, p, c);
    assert UpOk(nodes, path, c) && WordOk(nodes, path, types, hole, p) && WordOk(nodes, path, types, hole, c);
    ResidualSnoc(types, path[p], nodes[c].data);
  }

  /** The nodes with longer paths than `n`. */
  ghost function Longer(path: Paths, n: NodeId): set<NodeId>
    requires n in path
  {
    set m | m in path && |path[m]| > |path[n]|
  }

  /** Below every node but an empty root (and the hole) there is a leaf. */
  lemma {:induction false} LeafBelow(nodes: Heap, path: Paths, types: seq<Type>, hash: Key -> nat, n: NodeId)
    returns (l: NodeId)
    requires Shape(nodes, path, types, hash, None) && n in nodes
    requires n != ROOT || nodes[n].kids.Leaf? || Siblings(nodes[n].kids) != []
    ensures l in nodes && nodes[l].kids.Leaf? && path[n] <= path[l]
    decreases Longer(path, n)
  {
    l := n;
    assert WordOk(nodes, path, types, None, n);
    if !nodes[n].kids.Leaf? {
      var c := Siblings(nodes[n].kids)[0];
      ChildPath(nodes, path, types, hash, None, n, c);
      assert c in Longer(path, n) && c !in Longer(path, c);
      l := LeafBelow(nodes, path, types, hash, c);
    }
  }

  // ---------------------------------------------------------------- changes of shape

  /** `kids'` holds the children of `kids` and `c`. */
  ghost predicate PlusChild(kids: Kids, kids': Kids, c: NodeId) {
    && !kids'.Leaf? && NoDup(Siblings(kids'))
    && forall x :: x in Siblings(kids') <==> x == c || x in Siblings(kids)
  }

  ghost predicate MinusChild(kids: Kids, kids': Kids, c: NodeId) {
    && !kids'.Leaf? && NoDup(Siblings(kids'))
    && forall x :: x in Siblings(kids') <==> x != c && x in Siblings(kids)
  }

  ghost predicate SameChildren(kids: Kids, kids': Kids) {
    && !kids'.Leaf? && NoDup(Siblings(kids'))
    && forall x :: x in Siblings(kids') <==> x in Siblings(kids)
  }

  /** No node has the path that a missing child of `p` would have. */
  lemma FreshPath(nodes: Heap, path: Paths, types: seq<Type>, hash: Key -> nat, hole: Option<NodeId>, p: NodeId,
      key: Key, m: NodeId)
    requires Shape(nodes, path, types, hash, hole) && p in nodes && m in nodes
    requires forall s :: s in Siblings(nodes[p].kids) && s in nodes ==> nodes[s].data != key
    ensures path[m] != path[p] + [key]
  {
    if path[m] == path[p] + [key] {
      var c := ChildOnPath(nodes, path, types, hash, hole, p, m);
      assert false;
    }
  }

  /** A hash table does not notice changes elsewhere. */
  lemma TableFrame(nodes: Heap, nodes': Heap, hash: Key -> nat, kids: Kids)
    requires TableOk(nodes, hash, kids)
    requires forall c :: c in Siblings(kids) && c in nodes ==>
               c in nodes' && nodes'[c].data == nodes[c].data && nodes'[c].bucket == nodes[c].bucket
    ensures TableOk(nodes', hash, kids)
  {
    if kids.Table? {
      forall b | 0 <= b < |kids.buckets| ensures BucketOk(nodes', hash, kids.buckets, b) {
        assert BucketOk(nodes, hash, kids.buckets, b);
        forall c | c in kids.buckets[b] ensures c in Siblings(kids) {
          ConcatMember(kids.buckets, c);
        }
      }
    }
  }

  /** `trie_node::insert`: a new childless node below `p`. */
  ghost predicate Added(nodes: Heap, path: Paths, p: NodeId, c: NodeId, node: TrieNode, kids: Kids, nodes': Heap,
      path': Paths)
  {
    && p in nodes && p in path && c !in nodes && node.parent == p && node.kids == Chain([])
    && PlusChild(nodes[p].kids, kids, c)
    && nodes' == nodes[p := nodes[p].(kids := kids)][c := node]
    && path' == path[c := path[p] + [node.data]]
  }

  lemma AddChildPaths(nodes: Heap, path: Paths, types: seq<Type>, hash: Key -> nat, hole: Option<NodeId>,
      p: NodeId, c: NodeId, key: Key, path': Paths, n: NodeId, m: NodeId)
    requires Shape(nodes, path, types, hash, hole) && p in nodes && c !in nodes
    requires forall s :: s in Siblings(nodes[p].kids) && s in nodes ==> nodes[s].data != key
    requires path' == path[c := path[p] + [key]] && SamePath(path', n, m)
    ensures n == m
  {
    if n == c && m != c {
      FreshPath(nodes, path, types, hash, hole, p, key, m);
    } else if n != c && m == c {
      FreshPath(nodes, path, types, hash, hole, p, key, n);
    } else if n != c {
      assert SamePath(path, n, m);
    }
  }

  lemma AddChildUp(nodes: Heap, path: Paths, types: seq<Type>, hole: Option<NodeId>,
      p: NodeId, c: NodeId, node: TrieNode, kids: Kids, nodes': Heap, path': Paths, n: NodeId)
    requires path.Keys == nodes.Keys && (hole == None || hole == Some(p))
    requires Added(nodes, path, p, c, node, kids, nodes', path') && n in nodes
    requires UpOk(nodes, path, n) && WordOk(nodes, path, types, hole, n)
    ensures UpOk(nodes', path', n) && WordOk(nodes', path', types, Some(c), n)
  {
    if n == p {
      assert c in Siblings(kids);
    }
  }

  lemma AddChildKids(nodes: Heap, path: Paths, hash: Key -> nat,
      p: NodeId, c: NodeId, node: TrieNode, kids: Kids, nodes': Heap, path': Paths, n: NodeId)
    requires Added(nodes, path, p, c, node, kids, nodes', path') && n in nodes
    requires KidsOk(nodes, hash, n) && TableOk(nodes', hash, kids) && c != ROOT
    ensures KidsOk(nodes', hash, n)
  {
    if n != p {
      forall x | x in Siblings(nodes'[n].kids) ensures ChildOf(nodes', n, x) {
        assert ChildOf(nodes, n, x);
      }
      TableFrame(nodes, nodes', hash, nodes[n].kids);
    } else {
      forall x | x in Siblings(kids) ensures ChildOf(nodes', p, x) {
        assert x != c ==> ChildOf(nodes, p, x);
      }
    }
  }

  lemma AddChildShape(nodes: Heap, path: Paths, types: seq<Type>, hash: Key -> nat, hole: Option<NodeId>,
      p: NodeId, c: NodeId, node: TrieNode, kids: Kids, nodes': Heap, path': Paths)
    requires Shape(nodes, path, types, hash, hole) && (hole == None || hole == Some(p))
    requires Added(nodes, path, p, c, node, kids, nodes', path') && TableOk(nodes', hash, kids)
    requires Residual(types, path[p]).Some? && Eat(Residual(types, path[p]).value, node.data).Some?
    requires forall s :: s in Siblings(nodes[p].kids) && s in nodes ==> nodes[s].data != node.data
    ensures Shape(nodes', path', types, hash, Some(c))
  {
    forall n, m | SamePath(path', n, m) ensures n == m {
      AddChildPaths(nodes, path, types, hash, hole, p, c, node.data, path', n, m);
    }
    ResidualSnoc(types, path[p], node.data);
    assert c in Siblings(kids);
    forall n | n in nodes'
      ensures UpOk(nodes', path', n) && WordOk(nodes', path', types, Some(c), n) && KidsOk(nodes', hash, n)
    {
      if n != c {
        assert UpOk(nodes, path, n) && WordOk(nodes, path, types, hole, n) && KidsOk(nodes, hash, n);
        AddChildUp(nodes, path, types, hole, p, c, node, kids, nodes', path', n);
        AddChildKids(nodes, path, hash, p, c, node, kids, nodes', path', n);
      }
    }
  }

  /** `convert_hash` and `expand`: the same children of `p` in another container. */
  lemma RehashShape(nodes: Heap, path: Paths, types: seq<Type>, hash: Key -> nat, hole: Option<NodeId>, p: NodeId,
      nodes': Heap)
    requires Shape(nodes, path, types, hash, hole) && p in nodes
    requires nodes'.Keys == nodes.Keys
    requires forall n :: n in nodes ==>
               nodes'[n] == nodes[n].(kids := nodes'[n].kids, bucket := nodes'[n].bucket)
               && (n != p ==> nodes'[n].kids == nodes[n].kids)
               && (n !in Siblings(nodes[p].kids) ==> nodes'[n].bucket == nodes[n].bucket)
    requires SameChildren(nodes[p].kids, nodes'[p].kids) && TableOk(nodes', hash, nodes'[p].kids)
    requires Siblings(nodes[p].kids) != []
    ensures Shape(nodes', path, types, hash, hole)
  {
    var first := Siblings(nodes[p].kids)[0];
    assert first in Siblings(nodes'[p].kids);
    forall n | n in nodes' ensures UpOk(nodes', path, n) && WordOk(nodes', path, types, hole, n) {
      assert UpOk(nodes, path, n) && WordOk(nodes, path, types, hole, n);
    }
    forall n | n in nodes' ensures KidsOk(nodes', hash, n) {
      assert KidsOk(nodes, hash, n) && KidsOk(nodes, hash, p);
      forall x | x in Siblings(nodes'[n].kids) ensures ChildOf(nodes', n, x) {
        assert ChildOf(nodes, n, x);
      }
      if n != p {
        forall x | x in Siblings(nodes[n].kids) ensures x !in Siblings(nodes[p].kids) {
          assert ChildOf(nodes, n, x);
          assert x in Siblings(nodes[p].kids) ==> ChildOf(nodes, p, x);
        }
        TableFrame(nodes, nodes', hash, nodes[n].kids);
      }
    }
  }

  /** One round of `delete_path`: the childless node `n` leaves its parent `p`. */
  ghost predicate Removed(nodes: Heap, p: NodeId, n: NodeId, kids: Kids, nodes': Heap) {
    && n in nodes && n != ROOT && Siblings(nodes[n].kids) == []
    && p in nodes && p != n && nodes[n].parent == p
    && MinusChild(nodes[p].kids, kids, n)
    && nodes' == nodes[p := nodes[p].(kids := kids)] - {n}
  }

  lemma RemoveChildUp(nodes: Heap, path: Paths, types: seq<Type>, p: NodeId, n: NodeId, kids: Kids, nodes': Heap,
      hole: Option<NodeId>, m: NodeId)
    requires path.Keys == nodes.Keys && Removed(nodes, p, n, kids, nodes') && m in nodes'
    requires hole == if Siblings(kids) == [] && p != ROOT then Some(p) else None
    requires UpOk(nodes, path, m) && WordOk(nodes, path, types, Some(n), m)
    ensures UpOk(nodes', path - {n}, m) && WordOk(nodes', path - {n}, types, hole, m)
  {
  }

  lemma RemoveChildKids(nodes: Heap, hash: Key -> nat, p: NodeId, n: NodeId, kids: Kids, nodes': Heap, m: NodeId)
    requires Removed(nodes, p, n, kids, nodes') && m in nodes'
    requires KidsOk(nodes, hash, m) && TableOk(nodes', hash, kids)
    ensures KidsOk(nodes', hash, m)
  {
    forall x | x in Siblings(nodes'[m].kids) ensures ChildOf(nodes', m, x) {
      assert ChildOf(nodes, m, x);
    }
    if m != p {
      TableFrame(nodes, nodes', hash, nodes[m].kids);
    }
  }

  lemma RemoveChildShape(nodes: Heap, path: Paths, types: seq<Type>, hash: Key -> nat, p: NodeId, n: NodeId, kids: Kids,
      nodes': Heap)
    requires Shape(nodes, path, types, hash, Some(n))
    requires Removed(nodes, p, n, kids, nodes') && TableOk(nodes', hash, kids)
    ensures Shape(nodes', path - {n}, types, hash, if Siblings(kids) == [] && p != ROOT then Some(p) else None)
  {
    var hole := if Siblings(kids) == [] && p != ROOT then Some(p) else None;
    forall m, k | SamePath(path - {n}, m, k) ensures m == k {
      assert SamePath(path, m, k);
    }
    forall m | m in nodes'
      ensures UpOk(nodes', path - {n}, m) && WordOk(nodes', path - {n}, types, hole, m) && KidsOk(nodes', hash, m)
    {
      assert UpOk(nodes, path, m) && WordOk(nodes, path, types, Some(n), m) && KidsOk(nodes, hash, m);
      RemoveChildUp(nodes, path, types, p, n, kids, nodes', hole, m);
      RemoveChildKids(nodes, hash, p, n, kids, nodes', m);
    }
  }

  /** The last step of an insertion: the new node becomes a leaf. */
  lemma SetLeafShape(nodes: Heap, path: Paths, types: seq<Type>, hash: Key -> nat, n: NodeId, nodes': Heap)
    requires Shape(nodes, path, types, hash, Some(n)) && n in nodes && Siblings(nodes[n].kids) == []
    requires Residual(types, path[n]) == Some([])
    requires nodes' == nodes[n := nodes[n].(kids := Leaf)]
    ensures Shape(nodes', path, types, hash, None)
  {
    KidsChange(nodes, path, types, hash, n, Some(n), None, nodes');
  }

  /** The first step of a deletion: the leaf is taken off its node. */
  lemma ClearLeafShape(nodes: Heap, path: Paths, types: seq<Type>, hash: Key -> nat, n: NodeId, nodes': Heap)
    requires Shape(nodes, path, types, hash, None) && n in nodes && nodes[n].kids.Leaf?
    requires nodes' == nodes[n := nodes[n].(kids := Chain([]))]
    ensures Shape(nodes', path, types, hash, Some(n))
  {
    assert WordOk(nodes, path, types, None, n);
    KidsChange(nodes, path, types, hash, n, None, Some(n), nodes');
  }

  /** A node without children becomes or stops being a leaf. */
  lemma KidsChange(nodes: Heap, path: Paths, types: seq<Type>, hash: Key -> nat, n: NodeId,
      hole: Option<NodeId>, hole': Option<NodeId>, nodes': Heap)
    requires Shape(nodes, path, types, hash, hole) && n in nodes && Siblings(nodes[n].kids) == []
    requires nodes'.Keys == nodes.Keys && nodes' == nodes[n := nodes'[n]]
    requires nodes'[n] == nodes[n].(kids := nodes'[n].kids) && Siblings(nodes'[n].kids) == [] && !nodes'[n].kids.Table?
    requires WordOk(nodes', path, types, hole', n)
    requires hole == None || hole == Some(n)
    ensures Shape(nodes', path, types, hash, hole')
  {
    forall m | m in nodes' ensures UpOk(nodes', path, m) && WordOk(nodes', path, types, hole', m) {
      assert UpOk(nodes, path, m) && WordOk(nodes, path, types, hole, m);
    }
    forall m | m in nodes' ensures KidsOk(nodes', hash, m) {
      assert KidsOk(nodes, hash, m);
      KidsChangeKids(nodes, hash, n, nodes', m);
    }
  }

  lemma KidsChangeKids(nodes: Heap, hash: Key -> nat, n: NodeId, nodes': Heap, m: NodeId)
    requires n in nodes && m in nodes && Siblings(nodes[n].kids) == []
    requires nodes'.Keys == nodes.Keys && nodes' == nodes[n := nodes'[n]]
    requires nodes'[n] == nodes[n].(kids := nodes'[n].kids) && Siblings(nodes'[n].kids) == [] && !nodes'[n].kids.Table?
    requires KidsOk(nodes, hash, m)
    ensures KidsOk(nodes', hash, m)
  {
    forall x | x in Siblings(nodes'[m].kids) ensures ChildOf(nodes', m, x) {
      assert ChildOf(nodes, m, x);
    }
    TableFrame(nodes, nodes', hash, nodes'[m].kids);
  }

  /** The nodes that `delete_branch(n)` leaves: all but those properly below `n`. */
  ghost function Outside(path: Paths, n: NodeId): set<NodeId>
    requires n in path
  {
    set m | m in path && !(path[n] < path[m])
  }

  /** `delete_branch`: everything properly below `n` is gone. */
  ghost predicate Cut(nodes: Heap, path: Paths, n: NodeId, nodes': Heap, path': Paths) {
    && n in nodes && path.Keys == nodes.Keys
    && nodes'.Keys == Outside(path, n) && path'.Keys == Outside(path, n)
    && (forall m :: m in nodes' ==> nodes'[m] == if m == n then nodes[m].(kids := Chain([])) else nodes[m])
    && (forall m :: m in path' ==> path'[m] == path[m])
  }

  lemma CutUp(nodes: Heap, path: Paths, types: seq<Type>, n: NodeId, nodes': Heap, path': Paths, m: NodeId)
    requires Cut(nodes, path, n, nodes', path') && m in nodes'
    requires UpOk(nodes, path, m) && WordOk(nodes, path, types, None, m)
    requires nodes[m].parent == n ==> m == ROOT || path[n] < path[m]
    ensures UpOk(nodes', path', m) && WordOk(nodes', path', types, Some(n), m)
  {
    if m != ROOT {
      PrefixTrans(path[n], path[nodes[m].parent], path[m]);
    }
  }

  lemma CutKids(nodes: Heap, path: Paths, types: seq<Type>, hash: Key -> nat, n: NodeId, nodes': Heap, path': Paths,
      m: NodeId)
    requires Shape(nodes, path, types, hash, None) && Cut(nodes, path, n, nodes', path') && m in nodes'
    ensures KidsOk(nodes', hash, m)
  {
    assert KidsOk(nodes, hash, m);
    if m != n {
      forall x | x in Siblings(nodes'[m].kids) ensures ChildOf(nodes', m, x) {
        ChildPath(nodes, path, types, hash, None, m, x);
        PrefixOfInit(path[n], path[m], nodes[x].data);
        assert SamePath(path, n, m) ==> n == m;
      }
      TableFrame(nodes, nodes', hash, nodes[m].kids);
    }
  }

  lemma CutBranchShape(nodes: Heap, path: Paths, types: seq<Type>, hash: Key -> nat, n: NodeId, nodes': Heap,
      path': Paths)
    requires Shape(nodes, path, types, hash, None) && Cut(nodes, path, n, nodes', path')
    ensures Shape(nodes', path', types, hash, Some(n))
  {
    assert UpOk(nodes, path, ROOT);
    forall m, k | SamePath(path', m, k) ensures m == k {
      assert SamePath(path, m, k);
    }
    forall m | m in nodes'
      ensures UpOk(nodes', path', m) && WordOk(nodes', path', types, Some(n), m) && KidsOk(nodes', hash, m)
    {
      assert UpOk(nodes, path, m) && WordOk(nodes, path, types, None, m);
      CutUp(nodes, path, types, n, nodes', path', m);
      CutKids(nodes, path, types, hash, n, nodes', path', m);
    }
  }
}
