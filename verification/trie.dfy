/**
  The tuple trie of predicates/db/trie.cpp: an index from tuples to reference counts, changed in place.

  The memory is a map from node ids to nodes; lists of siblings, buckets and leaves, which the program
  links through `next` and `prev`, are sequences.  The value and type stacks are one stack of values.
*/
module Trie {
  import opened Common
  import opened Tuples
  import opened TrieShape
  import opened TrieContents
  import opened TrieLeaves
  import opened TrieAccounts
  import opened TrieHash
  import opened TrieCut
  import opened TrieMatch
  import opened TrieScan

  const HASH_LIST_THRESHOLD := 8
  const HASH_BASE_BUCKETS := 64
  const HASH_MAX_NODES_PER_BUCKET := HASH_LIST_THRESHOLD / 2

  /** An inner node's path is not a complete word, and a new key below it fits its types. */
  lemma InnerIncomplete(nodes: Heap, path: Paths, types: seq<Type>, hash: Key -> nat, p: NodeId)
    requires Shape(nodes, path, types, hash, None) && p in nodes && !nodes[p].kids.Leaf?
    requires p == ROOT ==> types != []
    ensures Residual(types, path[p]).Some? && Residual(types, path[p]) != Some([])
  {
    assert WordOk(nodes, path, types, None, p) && UpOk(nodes, path, p);
    if p != ROOT {
      ChildPath(nodes, path, types, hash, None, p, Siblings(nodes[p].kids)[0]);
    }
  }

  /** Without fields there is no room for another node. */
  lemma OnlyRoot(nodes: Heap, path: Paths, types: seq<Type>, hash: Key -> nat, leaves: seq<NodeId>, recs: Recs)
    requires Shape(nodes, path, types, hash, None) && LeavesOk(nodes, path, types, leaves, recs) && types == []
    ensures Siblings(nodes[ROOT].kids) == []
    ensures forall n :: n in recs ==> n == ROOT && nodes[ROOT].kids.Leaf?
    ensures Shape(nodes, path, types, hash, Some(ROOT))
    ensures !nodes[ROOT].kids.Leaf? ==> leaves == []
  {
    assert UpOk(nodes, path, ROOT);
    if Siblings(nodes[ROOT].kids) != [] {
      ChildPath(nodes, path, types, hash, None, ROOT, Siblings(nodes[ROOT].kids)[0]);
    }
    forall n | n in recs ensures n == ROOT && nodes[ROOT].kids.Leaf? {
      assert LeafOk(nodes, path, types, recs, n);
      assert SamePath(path, n, ROOT) ==> n == ROOT;
    }
    if leaves != [] {
      assert leaves[0] in recs;
    }
    forall n | n in nodes ensures WordOk(nodes, path, types, Some(ROOT), n) {
      assert WordOk(nodes, path, types, None, n);
    }
  }

  /** The root is allowed to have no children. */
  lemma RootMayBeEmpty(nodes: Heap, path: Paths, types: seq<Type>, hash: Key -> nat)
    requires Shape(nodes, path, types, hash, Some(ROOT)) || Shape(nodes, path, types, hash, None)
    ensures Shape(nodes, path, types, hash, Some(ROOT)) && Shape(nodes, path, types, hash, None)
  {
    if Shape(nodes, path, types, hash, Some(ROOT)) {
      forall n | n in nodes ensures WordOk(nodes, path, types, None, n) {
        assert WordOk(nodes, path, types, Some(ROOT), n);
      }
    } else {
      forall n | n in nodes ensures WordOk(nodes, path, types, Some(ROOT), n) {
        assert WordOk(nodes, path, types, None, n);
      }
    }
  }

  /** Taking one key off the stack follows the tuple one step further down. */
  lemma Advance(types: seq<Type>, here: seq<Key>, stack: seq<Value>, tuple: seq<Value>)
    requires stack != [] && here + Flat(stack) == Flat(tuple)
    requires Residual(types, here).Some? && HasTypes(stack, Residual(types, here).value)
    ensures var key := FirstKey(stack[0]);
            && Eat(Residual(types, here).value, key).Some?
            && here + [key] + Flat(Popped(stack)) == Flat(tuple)
            && Residual(types, here + [key]) == Eat(Residual(types, here).value, key)
            && HasTypes(Popped(stack), Residual(types, here + [key]).value)
  {
    var key := FirstKey(stack[0]);
    PoppedTypes(stack, Residual(types, here).value);
    ResidualSnoc(types, here, key);
    FlatStep(stack);
    KeyMoves(here, key, Flat(Popped(stack)), Flat(stack));
  }

  lemma KeyMoves(here: seq<Key>, key: Key, rest: seq<Key>, all: seq<Key>)
    requires all == [key] + rest
    ensures here + [key] + rest == here + all
  {
  }

  lemma TableReady(nodes: Heap, moved: Heap, path: Paths, types: seq<Type>, hash: Key -> nat, leaves: seq<NodeId>,
      recs: Recs, p: NodeId, buckets: seq<seq<NodeId>>, total: nat, nodes': Heap)
    requires Shape(nodes, path, types, hash, None) && LeavesOk(nodes, path, types, leaves, recs)
    requires p in nodes && Rebucketed(nodes, moved, Siblings(nodes[p].kids)) && !nodes[p].kids.Leaf?
    requires Siblings(nodes[p].kids) != [] && total == |Siblings(nodes[p].kids)|
    requires nodes' == moved[p := moved[p].(kids := Table(buckets, total))]
    requires Gathers(moved, hash, buckets, [], Siblings(nodes[p].kids))
    ensures Shape(nodes', path, types, hash, None) && LeavesOk(nodes', path, types, leaves, recs)
    ensures SameLookups(nodes, nodes', p)
  {
    Rehashed(nodes, moved, hash, p, buckets, total, nodes');
    RehashShape(nodes, path, types, hash, None, p, nodes');
    RehashLeaves(nodes, path, types, leaves, recs, p, nodes');
  }

  class TupleTrie {
    const types: seq<Type>
    const hash: Key -> nat
    var nodes: Heap
    var leaves: seq<NodeId>
    var recs: Recs
    var references: int
    var nextId: NodeId
    ghost var path: Paths
    ghost var owed: map<NodeId, nat>

    /** The index is in order, except that the node `hole` may be without children. */
    ghost predicate Ready(hole: Option<NodeId>)
      reads this`nodes, this`leaves, this`recs, this`nextId, this`path
    {
      && Shape(nodes, path, types, hash, hole) && LeavesOk(nodes, path, types, leaves, recs)
      && (hole.Some? ==> hole.value in nodes && !nodes[hole.value].kids.Leaf? && Siblings(nodes[hole.value].kids) == [])
      && forall n :: n in nodes ==> n < nextId
    }

    ghost function Contents(): seq<Entry>
      reads this`leaves, this`recs
      requires forall n :: n in leaves ==> n in recs
    {
      ContentsOf(leaves, recs)
    }

    // -------------------------------------------------------------- children of one node

    /** `trie_node::match` and `get_by_*`: the child with the given key, and how many were looked at. */
    method FindChild(p: NodeId, key: Key) returns (child: Option<NodeId>, count: nat)
      requires Shape(nodes, path, types, hash, None) && p in nodes && !nodes[p].kids.Leaf?
      ensures child.Some? ==>
                child.value in Siblings(nodes[p].kids) && child.value in nodes && nodes[child.value].data == key
      ensures child.None? ==> forall s :: s in Siblings(nodes[p].kids) && s in nodes ==> nodes[s].data != key
      ensures child.None? ==> count == |Lookup(nodes[p].kids, hash, key)|
      ensures child.Some? ==>
                && 0 < count <= |Lookup(nodes[p].kids, hash, key)| && Lookup(nodes[p].kids, hash, key)[count - 1] == child.value
                && forall i :: 0 <= i < count - 1 ==>
                     var s := Lookup(nodes[p].kids, hash, key)[i]; s in nodes && nodes[s].data != key
    {
      assert KidsOk(nodes, hash, p);
      var kids := nodes[p].kids;
      var list;
      if kids.Table? {
        TableNotEmpty(nodes, hash, kids);
        var b := hash(key) % |kids.buckets|;
        BucketMember(kids.buckets, b);
        list := kids.buckets[b];
      } else {
        list := kids.ids;
      }
      assert forall s :: s in list ==> s in Siblings(kids);
      assert forall s :: s in Siblings(kids) ==> ChildOf(nodes, p, s);
      child, count := ScanList(list, key);
      if child.None? {
        forall s | s in Siblings(kids) && s in nodes ensures nodes[s].data != key {
          if nodes[s].data == key && kids.Table? {
            TableLookup(nodes, hash, kids, key, s);
          }
        }
      }
    }

    /** The loop over one chain of siblings. */
    method ScanList(list: seq<NodeId>, key: Key) returns (child: Option<NodeId>, count: nat)
      requires forall s :: s in list ==> s in nodes
      ensures child.Some? ==>
                && 0 < count <= |list| && list[count - 1] == child.value && nodes[child.value].data == key
                && forall i :: 0 <= i < count - 1 ==> nodes[list[i]].data != key
      ensures child.None? ==> count == |list| && forall s :: s in list ==> nodes[s].data != key
    {
      count := 0;
      while count < |list|
        invariant count <= |list|
        invariant forall i :: 0 <= i < count ==> nodes[list[i]].data != key
      {
        var next := list[count];
        count := count + 1;
        if nodes[next].data == key {
          return Some(next), count;
        }
      }
      child := None;
    }

    /** `trie_node::insert`: a new child of `p`, in front of its list or bucket. */
    method AddChild(p: NodeId, key: Key, ghost hole: Option<NodeId>) returns (c: NodeId)
      requires Ready(hole) && (hole == None || hole == Some(p))
      requires p in nodes && !nodes[p].kids.Leaf?
      requires Residual(types, path[p]).Some? && Eat(Residual(types, path[p]).value, key).Some?
      requires forall s :: s in Siblings(nodes[p].kids) && s in nodes ==> nodes[s].data != key
      modifies this`nodes, this`nextId, this`path
      ensures Ready(Some(c))
      ensures c !in old(nodes) && nodes.Keys == old(nodes).Keys + {c} && path == old(path)[c := old(path)[p] + [key]]
    {
      c := nextId;
      assert UpOk(nodes, path, ROOT) && KidsOk(nodes, hash, p);
      var bucket := BucketFor(nodes[p].kids, hash, key);
      var kids := WithChild(nodes[p].kids, bucket, c);
      var node := TrieNode(p, key, Chain([]), bucket);
      ghost var nodes0, path0 := nodes, path;
      nodes := nodes[p := nodes[p].(kids := kids)][c := node];
      path := path[c := path[p] + [key]];
      nextId := nextId + 1;
      WithChildOk(nodes0, hash, p, c, node, nodes);
      AddChildShape(nodes0, path0, types, hash, hole, p, c, node, kids, nodes, path);
      AddedLeaves(nodes0, path0, types, leaves, recs, p, c, node, kids, nodes, path);
    }

    // -------------------------------------------------------------- hash tables

    /** The loop that `convert_hash` and `expand` share: every node of a chain goes to its bucket. */
    method MoveAll(ids: seq<NodeId>, start: seq<seq<NodeId>>, ghost base: seq<NodeId>)
      returns (buckets: seq<seq<NodeId>>)
      requires start != [] && Gathers(nodes, hash, start, base, []) && NoDup(ids)
      requires forall c :: c in ids ==> c in nodes && c !in base
      modifies this`nodes
      ensures Rebucketed(old(nodes), nodes, ids)
      ensures |buckets| == |start| && Gathers(nodes, hash, buckets, base, ids)
    {
      buckets := start;
      var i := 0;
      while i < |ids|
        invariant 0 <= i <= |ids|
        invariant Rebucketed(old(nodes), nodes, ids[..i])
        invariant |buckets| == |start| && Gathers(nodes, hash, buckets, base, ids[..i])
      {
        var next := ids[i];
        var b := hash(nodes[next].data) % |buckets|;
        ghost var nodes0 := nodes;
        NextNew(ids, i);
        nodes := nodes[next := nodes[next].(bucket := b)];
        GatherOne(nodes0, nodes, hash, buckets, base, ids[..i], b, next);
        RebucketOne(old(nodes), nodes0, nodes, ids[..i], b, next);
        buckets := buckets[b := [next] + buckets[b]];
        i := i + 1;
      }
      assert ids[..i] == ids;
    }

    /** `convert_hash`: the list of children becomes a hash table. */
    method ConvertHash(p: NodeId)
      requires Ready(None) && p in nodes && nodes[p].kids.Chain? && nodes[p].kids.ids != []
      modifies this`nodes
      ensures Ready(None) && SameLookups(old(nodes), nodes, p)
      ensures nodes[p].kids.Table? && |nodes[p].kids.buckets| == 64
    {
      var ids := nodes[p].kids.ids;
      assert KidsOk(nodes, hash, p);
      ChildrenIn(nodes, hash, p);
      ghost var nodes0 := nodes;
      var empty := seq(HASH_BASE_BUCKETS, _ => []);
      EmptyGathers(nodes, hash, empty);
      var buckets := MoveAll(ids, empty, []);
      ghost var moved := nodes;
      nodes := nodes[p := nodes[p].(kids := Table(buckets, |ids|))];
      TableReady(nodes0, moved, path, types, hash, leaves, recs, p, buckets, |ids|, nodes);
    }

    /** `expand`: twice as many buckets. */
    method Expand(p: NodeId)
      requires Ready(None) && p in nodes && nodes[p].kids.Table?
      modifies this`nodes
      ensures Ready(None) && SameLookups(old(nodes), nodes, p)
      ensures nodes[p].kids.Table? && |nodes[p].kids.buckets| == 2 * |old(nodes)[p].kids.buckets|
    {
      var kids := nodes[p].kids;
      var olds := kids.buckets;
      assert KidsOk(nodes, hash, p);
      ChildrenIn(nodes, hash, p);
      TableNotEmpty(nodes, hash, kids);
      ghost var nodes0 := nodes;
      var buckets := ExpandBuckets(olds);
      ghost var moved := nodes;
      nodes := nodes[p := nodes[p].(kids := Table(buckets, kids.total))];
      TableReady(nodes0, moved, path, types, hash, leaves, recs, p, buckets, kids.total, nodes);
    }

    /** The loop over the old buckets in `expand`. */
    method ExpandBuckets(olds: seq<seq<NodeId>>) returns (buckets: seq<seq<NodeId>>)
      requires olds != [] && NoDup(Concat(olds)) && forall c :: c in Concat(olds) ==> c in nodes
      modifies this`nodes
      ensures Rebucketed(old(nodes), nodes, Concat(olds))
      ensures |buckets| == 2 * |olds| && Gathers(nodes, hash, buckets, [], Concat(olds))
    {
      buckets := seq(2 * |olds|, _ => []);
      EmptyGathers(nodes, hash, buckets);
      for i := 0 to |olds|
        invariant Rebucketed(old(nodes), nodes, Concat(olds[..i]))
        invariant |buckets| == 2 * |olds| && Gathers(nodes, hash, buckets, [], Concat(olds[..i]))
      {
        ConcatTake(olds, i);
        NextBucketNew(olds, i);
        ghost var nodes1, buckets1 := nodes, buckets;
        buckets := MoveAll(olds[i], buckets, Concat(buckets));
        GatherMore(old(nodes), nodes1, nodes, hash, buckets1, buckets, Concat(olds[..i]), olds[i]);
      }
      assert olds[..|olds|] == olds;
    }

    // -------------------------------------------------------------- insertion

    /** A new node becomes the leaf of a tuple, at the end of the leaf list. */
    method MakeLeaf(p: NodeId, tuple: seq<Value>, many: int)
      requires Ready(Some(p)) && p in nodes && p !in recs
      requires HasTypes(tuple, types) && path[p] == Flat(tuple)
      requires !Stored(Contents(), tuple)
      modifies this`nodes, this`leaves, this`recs
      ensures Ready(None)
      ensures recs == old(recs)[p := Rec(tuple, many)] && leaves == old(leaves) + [p]
      ensures Contents() == Bump(old(Contents()), tuple, many)
    {
      ghost var nodes0, leaves0, recs0 := nodes, leaves, recs;
      FlatComplete(tuple, types);
      nodes := nodes[p := nodes[p].(kids := Leaf)];
      recs := recs[p := Rec(tuple, many)];
      leaves := leaves + [p];
      SetLeafShape(nodes0, path, types, hash, p, nodes);
      LeafAdded(nodes0, path, types, leaves0, recs0, p, tuple, many, nodes);
      BumpNew(ContentsOf(leaves0, recs0), tuple, many);
    }

    /** The rest of an insertion: one new node for each remaining key, then the leaf. */
    method Grow(parent: NodeId, rest: seq<Value>, tuple: seq<Value>, many: int) returns (node: NodeId)
      requires Ready(None) && parent in nodes && !nodes[parent].kids.Leaf? && rest != []
      requires HasTypes(tuple, types) && path[parent] + Flat(rest) == Flat(tuple) && !Stored(Contents(), tuple)
      requires Residual(types, path[parent]).Some? && HasTypes(rest, Residual(types, path[parent]).value)
      requires forall s :: s in Siblings(nodes[parent].kids) && s in nodes ==> nodes[s].data != FirstKey(rest[0])
      modifies this`nodes, this`leaves, this`recs, this`nextId, this`path
      ensures Ready(None)
      ensures many >= 0 ==> Checked(old(leaves), old(recs), leaves, recs, tuple, many, false, Some(node), false)
      ensures Contents() == Bump(old(Contents()), tuple, many)
    {
      Advance(types, path[parent], rest, tuple);
      node := AddChild(parent, FirstKey(rest[0]), None);
      assert forall n :: n in recs ==> n in old(nodes) by {
        forall n | n in recs ensures n in old(nodes) {
          assert old(LeafOk(nodes, path, types, recs, n));
        }
      }
      var stack := Popped(rest);
      while stack != []
        invariant Ready(Some(node)) && node in nodes && node !in old(nodes)
        invariant recs == old(recs) && leaves == old(leaves)
        invariant forall n :: n in old(nodes) ==> n in nodes
        invariant path[node] + Flat(stack) == Flat(tuple)
        invariant Residual(types, path[node]).Some? && HasTypes(stack, Residual(types, path[node]).value)
        decreases StackWeight(stack)
      {
        Advance(types, path[node], stack, tuple);
        PoppedWeight(stack);
        node := AddChild(node, FirstKey(stack[0]), Some(node));
        stack := Popped(stack);
      }
      MakeLeaf(node, tuple, many);
    }

    /** `add_count` on the leaf of a tuple. */
    method AddCount(n: NodeId, ghost tuple: seq<Value>, many: int)
      requires Ready(None) && n in recs && recs[n].tuple == tuple
      modifies this`recs
      ensures Ready(None)
      ensures Checked(old(leaves), old(recs), leaves, recs, tuple, many, types == [], Some(n), true)
      ensures Contents() == Bump(old(Contents()), tuple, many)
    {
      LeavesDistinct(nodes, path, types, hash, None, leaves, recs);
      ghost var recs0 := recs;
      recs := Recounted(recs, n, many);
      CountChanged(nodes, path, types, leaves, recs0, n, many, recs);
    }

    /** Follows the tuple down to its leaf or to the node where its path stops.  When it stops the
        list there is made a hash table, or its hash table larger, if it has grown too long. */
    method Descend(tuple: seq<Value>, many: int) returns (parent: NodeId, rest: seq<Value>)
      requires Ready(None) && HasTypes(tuple, types) && types != []
      modifies this`nodes
      ensures Ready(None) && parent in nodes && path[parent] + Flat(rest) == Flat(tuple)
      ensures Residual(types, path[parent]).Some? && HasTypes(rest, Residual(types, path[parent]).value)
      ensures nodes[parent].kids.Leaf? <==> rest == []
      ensures rest != [] ==> !Stored(Contents(), tuple)
      ensures rest != [] ==>
                forall s :: s in Siblings(nodes[parent].kids) && s in nodes ==> nodes[s].data != FirstKey(rest[0])
      ensures rest == [] || many < 0 ==> nodes == old(nodes)
    {
      parent, rest := ROOT, tuple;
      assert UpOk(nodes, path, ROOT) && path[ROOT] + Flat(tuple) == Flat(tuple);
      while !nodes[parent].kids.Leaf?
        invariant nodes == old(nodes) && parent in nodes
        invariant path[parent] + Flat(rest) == Flat(tuple)
        invariant Residual(types, path[parent]).Some? && HasTypes(rest, Residual(types, path[parent]).value)
        decreases StackWeight(rest)
      {
        InnerIncomplete(nodes, path, types, hash, parent);
        Advance(types, path[parent], rest, tuple);
        PoppedWeight(rest);
        var child, count := FindChild(parent, FirstKey(rest[0]));
        if child.None? {
          MissingChild(nodes, path, types, hash, leaves, recs, parent, tuple, rest);
          if many >= 0 {
            MakeRoom(parent, count + 1);
          }
          return;
        }
        ChildPath(nodes, path, types, hash, None, parent, child.value);
        parent, rest := child.value, Popped(rest);
      }
      assert WordOk(nodes, path, types, None, parent);
    }

    /** The container of `p`'s children is changed when `count` children are too many for it. */
    method MakeRoom(p: NodeId, count: nat)
      requires Ready(None) && p in nodes && !nodes[p].kids.Leaf?
      requires nodes[p].kids.Chain? ==> count == |nodes[p].kids.ids| + 1
      modifies this`nodes
      ensures Ready(None) && nodes.Keys == old(nodes).Keys
      ensures !nodes[p].kids.Leaf?
      ensures nodes == old(nodes) || SameLookups(old(nodes), nodes, p)
      ensures old(nodes)[p].kids.Chain? ==> (nodes[p].kids.Table? <==> count > 8)
      ensures old(nodes)[p].kids.Table? ==>
                && nodes[p].kids.Table?
                && |nodes[p].kids.buckets| ==
                   |old(nodes)[p].kids.buckets| * (if count > 4 then 2 else 1)
    {
      if count > HASH_LIST_THRESHOLD && nodes[p].kids.Chain? {
        ConvertHash(p);
      } else if nodes[p].kids.Table? && count > HASH_MAX_NODES_PER_BUCKET {
        Expand(p);
      }
    }

    /** `check_insert`: adds `many` to the tuple's count, inserting it if it is not there; a tuple that
        is not there is not deleted. */
    method CheckInsert(tuple: seq<Value>, many: int) returns (node: Option<NodeId>, found: bool)
      requires Ready(None) && HasTypes(tuple, types)
      modifies this`nodes, this`leaves, this`recs, this`nextId, this`path
      ensures Ready(None)
      ensures found <==> Stored(old(Contents()), tuple)
      ensures Checked(old(leaves), old(recs), leaves, recs, tuple, many, types == [], node, found)
      ensures node.Some? ==> Contents() == Bump(old(Contents()), tuple, many)
      ensures node.None? ==> nodes == old(nodes) && path == old(path)
    {
      if types == [] {
        node, found := CheckInsertRoot(tuple, many);
      } else {
        node, found := CheckInsertBelow(tuple, many);
      }
    }

    /** The 0-arity branch of `check_insert`. */
    method CheckInsertRoot(tuple: seq<Value>, many: int) returns (node: Option<NodeId>, found: bool)
      requires Ready(None) && HasTypes(tuple, types) && types == []
      modifies this`nodes, this`leaves, this`recs
      ensures Ready(None)
      ensures found <==> Stored(old(Contents()), tuple)
      ensures Checked(old(leaves), old(recs), leaves, recs, tuple, many, true, node, found)
      ensures node.Some? && Contents() == Bump(old(Contents()), tuple, many)
    {
      found := RootIsLeaf();
      node := Some(ROOT);
      assert UpOk(nodes, path, ROOT) && Flat(tuple) == [];
      if found {
        LeafIsTuple(nodes, path, types, leaves, recs, ROOT, tuple);
        AddCount(ROOT, tuple, many);
      } else {
        MakeLeaf(ROOT, tuple, many);
      }
    }

    method CheckInsertBelow(tuple: seq<Value>, many: int) returns (node: Option<NodeId>, found: bool)
      requires Ready(None) && HasTypes(tuple, types) && types != []
      modifies this`nodes, this`leaves, this`recs, this`nextId, this`path
      ensures Ready(None)
      ensures found <==> Stored(old(Contents()), tuple)
      ensures Checked(old(leaves), old(recs), leaves, recs, tuple, many, false, node, found)
      ensures node.Some? ==> Contents() == Bump(old(Contents()), tuple, many)
      ensures node.None? ==> nodes == old(nodes) && path == old(path)
    {
      var parent, rest := Descend(tuple, many);
      found := rest == [];
      if found {
        assert path[parent] + [] == path[parent];
        LeafIsTuple(nodes, path, types, leaves, recs, parent, tuple);
        AddCount(parent, tuple, many);
        node := Some(parent);
      } else if many < 0 {
        node := None;
      } else {
        var leaf := Grow(parent, rest, tuple, many);
        node := Some(leaf);
      }
    }

    /** For a predicate without fields only the root can be a leaf. */
    method RootIsLeaf() returns (leaf: bool)
      requires Ready(None) && types == []
      ensures leaf == nodes[ROOT].kids.Leaf?
      ensures leaf ==> ROOT in recs
      ensures !leaf ==> Ready(Some(ROOT)) && ROOT !in recs && leaves == []
    {
      leaf := nodes[ROOT].kids.Leaf?;
      OnlyRoot(nodes, path, types, hash, leaves, recs);
    }

    // -------------------------------------------------------------- deletion

    /** `delete_path`: removes a childless node and every ancestor that it leaves childless, which is
        every node but the root that leads to no leaf. */
    method DeletePath(n: NodeId)
      requires Ready(Some(n))
      modifies this`nodes, this`path
      ensures Ready(None) && Trimmed(old(nodes), old(path), leaves, nodes, path)
      decreases |path[n]|
    {
      hide Trimmed, LeadsToLeaf, LeavesOk;
      if n == ROOT {
        RootMayBeEmpty(nodes, path, types, hash);
        AllLead(nodes, path, types, hash, leaves, recs);
        return;
      }
      ghost var path0 := path;
      ChildlessLeads(nodes, path, types, hash, leaves, recs, n);
      assert UpOk(nodes, path, n);
      var p := nodes[n].parent;
      assert KidsOk(nodes, hash, p) && p != n;
      var kids := WithoutChild(nodes[p].kids, nodes[n].bucket, n);
      ghost var nodes0 := nodes;
      nodes := nodes[p := nodes[p].(kids := kids)] - {n};
      WithoutChildOk(nodes0, hash, p, n, kids, nodes);
      RemoveChildShape(nodes0, path, types, hash, p, n, kids, nodes);
      RemovedLeaves(nodes0, path, types, leaves, recs, p, n, kids, nodes);
      path := path - {n};
      ghost var nodes1, path1 := nodes, path;
      if NoChildren(kids) {
        if p == ROOT {
          RootMayBeEmpty(nodes, path, types, hash);
        }
        DeletePath(p);
      } else {
        AllLead(nodes, path, types, hash, leaves, recs);
      }
      TrimmedOne(nodes0, path0, leaves, n, nodes1, path1, nodes, path);
    }

    /** Takes the leaf off a node and removes the node. */
    method RemoveLeaf(n: NodeId)
      requires Ready(None) && n in recs
      modifies this`nodes, this`leaves, this`recs, this`path
      ensures Ready(None)
      ensures recs == old(recs) - {n} && leaves == Without(old(leaves), n)
      ensures Contents() == Drop(old(Contents()), old(recs)[n].tuple)
    {
      LeavesDistinct(nodes, path, types, hash, None, leaves, recs);
      assert LeafOk(nodes, path, types, recs, n);
      ghost var nodes0, leaves0, recs0 := nodes, leaves, recs;
      leaves := Without(leaves, n);
      recs := recs - {n};
      nodes := nodes[n := nodes[n].(kids := Chain([]))];
      ClearLeafShape(nodes0, path, types, hash, n, nodes);
      LeafRemoved(nodes0, path, types, leaves0, recs0, n, nodes);
      DeletePath(n);
    }

    /** `delete_branch`: frees everything below `n`, and `n`'s leaf if it is one; the result is the sum
        of the reference counts that went away.  `nodes0` is the trie before the removal began. */
    method DeleteBranch(n: NodeId, ghost nodes0: Heap, ghost path0: Paths) returns (count: int)
      requires Shape(nodes0, path0, types, hash, None) && n in nodes0
      requires Standing(nodes0, nodes, leaves, recs, Below(path0, n))
      modifies this`nodes, this`leaves, this`recs
      ensures n in old(nodes) && nodes == Emptied(old(nodes), Below(path0, n), n)
      ensures Gone(old(leaves), old(recs), leaves, recs, Below(path0, n), count)
      decreases Longer(path0, n), 2
    {
      assert n in Below(path0, n);
      if nodes[n].kids.Leaf? {
        LeafBranch(nodes0, path0, types, hash, n, leaves, recs);
        count := recs[n].count;
        leaves := Without(leaves, n);
        recs := recs - {n};
      } else {
        BelowChildren(nodes0, path0, types, hash, n);
        assert KidsOk(nodes0, hash, n);
        if nodes[n].kids.Table? {
          count := DeleteBuckets(n, nodes[n].kids.buckets, nodes0, path0);
        } else {
          count := DeleteAll(n, nodes[n].kids.ids, nodes0, path0);
        }
        InnerGone(old(leaves), old(recs), leaves, recs, Below(path0, n), n, count);
      }
      nodes := nodes[n := nodes[n].(kids := Chain([]))];
    }

    /** The loop over one chain in `delete_branch`. */
    method DeleteAll(ghost p: NodeId, ids: seq<NodeId>, ghost nodes0: Heap, ghost path0: Paths) returns (count: int)
      requires Shape(nodes0, path0, types, hash, None) && p in nodes0 && NoDup(ids)
      requires forall c :: c in ids ==> c in Siblings(nodes0[p].kids)
      requires Standing(nodes0, nodes, leaves, recs, BelowAny(path0, ids))
      modifies this`nodes, this`leaves, this`recs
      ensures nodes == old(nodes) - BelowAny(path0, ids)
      ensures Gone(old(leaves), old(recs), leaves, recs, BelowAny(path0, ids), count)
      decreases Longer(path0, p), 0
    {
      count := 0;
      NothingGone(leaves, recs);
      NoneBelow(path0, nodes);
      for i := 0 to |ids|
        invariant nodes == old(nodes) - BelowAny(path0, ids[..i])
        invariant Gone(old(leaves), old(recs), leaves, recs, BelowAny(path0, ids[..i]), count)
      {
        var next := ids[i];
        ghost var nodes1, leaves1, recs1 := nodes, leaves, recs;
        BeforeBranch(nodes0, path0, types, hash, p, ids, i, old(nodes), old(leaves), old(recs), nodes, leaves, recs);
        ghost var done, here := BelowAny(path0, ids[..i]), Below(path0, next);
        var more := DeleteBranch(next, nodes0, path0);
        GoneTwice(old(leaves), old(recs), leaves1, recs1, leaves, recs, done, here, count, more);
        EmptiedAndFreed(nodes1, here, next);
        TakenTwice(old(nodes), done, here);
        nodes := nodes - {next};
        count := count + more;
      }
      assert ids[..|ids|] == ids;
    }

    /** The loop over the buckets of a hash table in `delete_branch`. */
    method DeleteBuckets(ghost p: NodeId, buckets: seq<seq<NodeId>>, ghost nodes0: Heap, ghost path0: Paths)
      returns (count: int)
      requires Shape(nodes0, path0, types, hash, None) && p in nodes0 && Siblings(nodes0[p].kids) == Concat(buckets)
      requires Standing(nodes0, nodes, leaves, recs, BelowAny(path0, Concat(buckets)))
      modifies this`nodes, this`leaves, this`recs
      ensures nodes == old(nodes) - BelowAny(path0, Concat(buckets))
      ensures Gone(old(leaves), old(recs), leaves, recs, BelowAny(path0, Concat(buckets)), count)
      decreases Longer(path0, p), 1
    {
      count := 0;
      NothingGone(leaves, recs);
      NoneBelow(path0, nodes);
      for i := 0 to |buckets|
        invariant nodes == old(nodes) - BelowAny(path0, Concat(buckets[..i]))
        invariant Gone(old(leaves), old(recs), leaves, recs, BelowAny(path0, Concat(buckets[..i])), count)
      {
        ghost var leaves1, recs1 := leaves, recs;
        ghost var done, here := BelowAny(path0, Concat(buckets[..i])), BelowAny(path0, buckets[i]);
        BeforeBucket(nodes0, path0, types, hash, p, buckets, i, old(nodes), old(leaves), old(recs), nodes, leaves, recs);
        var more := DeleteAll(p, buckets[i], nodes0, path0);
        GoneTwice(old(leaves), old(recs), leaves1, recs1, leaves, recs, done, here, count, more);
        TakenTwice(old(nodes), done, here);
        count := count + more;
      }
      assert buckets[..|buckets|] == buckets;
    }

    // -------------------------------------------------------------- the operations of tuple_trie

    /** The index is in order and the references are accounted for. */
    ghost predicate Valid()
      reads this
    {
      Ready(None) && Accounted(leaves, recs, references, owed)
    }

    constructor (types: seq<Type>, hash: Key -> nat)
      ensures Valid() && Contents() == [] && references == 0
      ensures this.types == types && this.hash == hash
    {
      this.types, this.hash := types, hash;
      nodes, leaves, recs, references, nextId := map[ROOT := TrieNode(ROOT, NilKey, Chain([]), 0)], [], map[], 0, 1;
      path, owed := map[ROOT := []], map[];
      new;
      assert UpOk(nodes, path, ROOT) && KidsOk(nodes, hash, ROOT) && WordOk(nodes, path, types, None, ROOT);
    }

    /** `insert_tuple`: true when the tuple is new. */
    method InsertTuple(tuple: seq<Value>, many: int) returns (isNew: bool)
      requires Valid() && HasTypes(tuple, types) && many > 0
      modifies this
      ensures Valid() && references == old(references) + many
      ensures isNew <==> !Stored(old(Contents()), tuple)
      ensures Contents() == Bump(old(Contents()), tuple, many)
      ensures forall n :: n in old(owed) ==> n in owed && owed[n] == old(owed)[n]
      ensures forall n :: n in owed && n !in old(owed) ==> owed[n] == 0
    {
      references := references + many;
      var node, found := CheckInsert(tuple, many);
      isNew := !found;
      ghost var owed0 := owed;
      if isNew {
        owed := owed[node.value := 0];
      }
      InsertAccounts(old(leaves), old(recs), old(references), owed0, leaves, recs, tuple, many, types == [], node, found);
    }

    /** `delete_tuple`: the count goes down at once; when it reaches zero the rest is left to
        `CommitDelete`.  The trie stays in order, but the references are accounted for only if no more is
        deleted than there is.  The result `asserted` is false when the assertion of the program fails: for
        a predicate without fields a missing tuple has got a leaf with a negative count. */
    method DeleteTuple(tuple: seq<Value>, many: int) returns (info: DeleteInfo, asserted: bool)
      requires Valid() && HasTypes(tuple, types) && many > 0
      modifies this
      ensures asserted <==> types != [] || Stored(old(Contents()), tuple)
      ensures asserted ==> (Valid() <==> !Stored(old(Contents()), tuple) || many <= Count(old(Contents()), tuple))
      ensures asserted ==>
                && Ready(None)
                && Deleted(old(Contents()), old(references), old(owed), Contents(), references, owed, tuple, many, info)
      ensures info.toDelete ==>
                asserted && info.node in recs && recs[info.node].tuple == tuple && recs[info.node].count == 0
      ensures !asserted ==> Ready(None) && Contents() == Bump(old(Contents()), tuple, -many)
    {
      hide Shape, Accounted, ContentsOf, Bump, Count, Stored, Distinct;
      LeavesDistinct(nodes, path, types, hash, None, leaves, recs);
      var node, found := CheckInsert(tuple, -many);
      if node == None {
        return DeleteInfo(false, ROOT, 0), true;
      }
      if !found {
        return DeleteInfo(false, ROOT, 0), false;
      }
      DeleteAccounts(leaves, old(recs), references, owed, recs, tuple, many, node.value);
      info := Settle(node.value, many);
      asserted := true;
    }

    /** The end of `delete_tuple`: now or later. */
    method Settle(n: NodeId, many: int) returns (info: DeleteInfo)
      requires n in recs && n in owed && many > 0
      modifies this`references, this`owed
      ensures info == (if recs[n].count == 0 then DeleteInfo(true, n, many) else DeleteInfo(false, ROOT, 0))
      ensures references == if info.toDelete then old(references) else old(references) - many
      ensures owed == if info.toDelete then old(owed)[n := old(owed)[n] + many] else old(owed)
    {
      if recs[n].count == 0 {
        owed := owed[n := owed[n] + many];
        info := DeleteInfo(true, n, many);
      } else {
        references := references - many;
        info := DeleteInfo(false, ROOT, 0);
      }
    }

    /** `commit_delete`: what was announced is subtracted; the tuple goes away unless it has been
        inserted again in the meantime.  The trie stays in order, but the references are accounted for
        only if the tuple does not go away with more owed on it. */
    method CommitDelete(info: DeleteInfo)
      requires Valid() && info.node in recs && 0 <= info.many <= owed[info.node]
      modifies this
      ensures Ready(None) && references == old(references) - info.many
      ensures Valid() <==> old(recs)[info.node].count == 0 ==> old(owed)[info.node] == info.many
      ensures var t := old(recs)[info.node].tuple;
              Contents() == if Count(old(Contents()), t) == 0 then Drop(old(Contents()), t) else old(Contents())
      ensures old(recs)[info.node].count != 0 ==> owed == old(owed)[info.node := old(owed)[info.node] - info.many]
      ensures old(recs)[info.node].count == 0 ==>
                owed == old(owed) - {info.node} && leaves == Without(old(leaves), info.node)
    {
      hide Shape, Accounted, Drop, Without, Count, ContentsOf;
      var n := info.node;
      LeafAccounts(n);
      CommitAccounts(leaves, recs, references, owed, n, info.many);
      references := references - info.many;
      if recs[n].count != 0 {
        owed := owed[n := owed[n] - info.many];
      }
      Unlink(n);
    }

    /** A leaf and its entry. */
    lemma LeafAccounts(n: NodeId)
      requires Valid() && n in recs
      ensures Distinct(Contents()) && NoDup(leaves) && n in owed && n in leaves && forall m :: m in leaves <==>
              m in recs
      ensures Stored(Contents(), recs[n].tuple) && Count(Contents(), recs[n].tuple) == recs[n].count
    {
      LeavesDistinct(nodes, path, types, hash, None, leaves, recs);
      CountOfLeaf(leaves, recs, n);
    }

    /** `delete_by_leaf`: one reference less.  The trie stays in order, but the references are accounted
        for only if there was one, and the last one does not go while an earlier deletion is announced. */
    method DeleteByLeaf(n: NodeId)
      requires Valid() && n in recs
      modifies this
      ensures Ready(None) && references == old(references) - 1
      ensures Valid() <==> old(recs)[n].count > 0 && (old(recs)[n].count == 1 ==> old(owed)[n] == 0)
      ensures var t := old(recs)[n].tuple;
              Contents() == if Count(old(Contents()), t) == 1 then Drop(Bump(old(Contents()), t, -1), t)
                            else Bump(old(Contents()), t, -1)
    {
      hide Shape, Accounted, Drop, Without, Count, ContentsOf, Checked;
      LeafAccounts(n);
      references := references - 1;
      AddCount(n, recs[n].tuple, -1);
      ByLeafAccounts(old(leaves), old(recs), old(references), owed, n, recs);
      Unlink(n);
    }

    /** `inner_delete_by_leaf`: a leaf whose count has reached zero goes away. */
    method Unlink(n: NodeId)
      requires Ready(None) && n in recs
      modifies this`nodes, this`leaves, this`recs, this`path, this`owed
      ensures Ready(None)
      ensures if old(recs)[n].count == 0
              then leaves == Without(old(leaves), n) && recs == old(recs) - {n} && owed == old(owed) - {n}
              else leaves == old(leaves) && recs == old(recs) && owed == old(owed)
      ensures Contents() == if old(recs)[n].count == 0 then Drop(old(Contents()), old(recs)[n].tuple) else old(Contents())
    {
      if recs[n].count == 0 {
        owed := owed - {n};
        RemoveLeaf(n);
      }
    }

    /** The way down in `delete_by_index`: one exact field after the other.  `get_by_*` asserts that
        there is a child. */
    method FindLead(m: seq<MatchField>) returns (found: Option<NodeId>, asserted: bool)
      requires Ready(None) && MatchTypes(m) == types
      ensures asserted <==> m == [] || m[0].Any? || leaves != []
      ensures found.Some? ==> asserted && found.value in nodes && path[found.value] == LeadKeys(m)
      ensures found.None? ==> forall n :: n in recs ==> !Led(m, recs[n].tuple)
    {
      var node, stack := ROOT, m;
      assert UpOk(nodes, path, ROOT);
      while stack != []
        invariant node in nodes && path[node] + LeadKeys(stack) == LeadKeys(m)
        invariant Residual(types, path[node]) == Some(MatchTypes(stack))
        invariant stack == m || leaves != []
        decreases |stack|
      {
        var field := stack[0];
        if field.Any? {
          break;
        }
        assert WordOk(nodes, path, types, None, node);
        if NoChildren(nodes[node].kids) {
          NothingHere(nodes, path, types, hash, leaves, recs, node);
          return None, false;
        }
        SomethingBelow(nodes, path, types, hash, leaves, recs, node);
        var child, count := FindChild(node, AtomKey(field.atom));
        if child.None? {
          NoneLed(nodes, path, hash, leaves, recs, m, node, AtomKey(field.atom), LeadKeys(stack[1..]));
          return None, true;
        }
        ChildPath(nodes, path, types, hash, None, node, child.value);
        LeadStep(path[node], stack, LeadKeys(m));
        node, stack := child.value, stack[1..];
      }
      found, asserted := Some(node), true;
    }

    /** `delete_by_index`: removes exactly the tuples that agree with the leading exact fields.  The result
        is false when the assertion in `get_by_*` fails: in an empty trie with a leading exact field.  The
        references are accounted for only if nothing is owed on the tuples removed. */
    method DeleteByIndex(m: seq<MatchField>) returns (asserted: bool)
      requires Valid() && MatchTypes(m) == types
      modifies this
      ensures asserted <==> m == [] || m[0].Any? || old(leaves) != []
      ensures Ready(None)
      ensures Valid() <==> forall n :: n in old(recs) && Led(m, old(recs)[n].tuple) ==> old(owed)[n] == 0
      ensures Contents() == DropLed(old(Contents()), m)
      ensures references == old(references) - (Total(old(Contents())) - Total(Contents()))
    {
      var found;
      found, asserted := FindLead(m);
      if found.Some? {
        BranchIsLed(nodes, path, leaves, recs, m, found.value);
        DeleteBelow(found.value);
        KeepIsDropLed(old(leaves), old(recs), Below(old(path), found.value), m);
      } else {
        NothingLed(leaves, recs, m);
      }
    }

    /** The end of `delete_by_index`. */
    method DeleteBelow(n: NodeId)
      requires Valid() && n in nodes
      modifies this
      ensures Ready(None) && n in old(path)
      ensures Valid() <==> forall l :: l in old(leaves) && l in Below(old(path), n) ==> old(owed)[l] == 0
      ensures Gone(old(leaves), old(recs), leaves, recs, Below(old(path), n), old(references) - references)
    {
      hide Shape, Accounted, Owing, Total, ContentsOf;
      BranchStands(nodes, path, types, hash, leaves, recs, n);
      var count := DeleteBranch(n, nodes, path);
      references := references - count;
      BranchAccounts(old(leaves), old(recs), old(references), owed, leaves, recs, Below(path, n), count);
      owed := owed - Below(path, n);
      FinishCut(n, old(nodes), old(leaves), old(recs));
    }

    /** The childless node of a removed branch is removed too. */
    method FinishCut(n: NodeId, ghost nodes0: Heap, ghost leaves0: seq<NodeId>, ghost recs0: Recs)
      requires Shape(nodes0, path, types, hash, None) && n in nodes0 && LeavesOk(nodes0, path, types, leaves0, recs0)
      requires LeavesGone(leaves0, recs0, leaves, recs, Below(path, n))
      requires nodes == Emptied(nodes0, Below(path, n), n) && forall m :: m in nodes0 ==> m < nextId
      modifies this`nodes, this`path
      ensures Ready(None)
    {
      BranchCut(nodes0, path, types, hash, leaves0, recs0, n, leaves, recs);
      path := path - (Below(path, n) - {n});
      DeletePath(n);
    }

    // -------------------------------------------------------------- the matcher

    /** The loop that looks for a bucket with nodes.  It reads a bucket before it tests for the end, so
        that it can read the cell behind the table, which holds anything. */
    method FirstFilled(buckets: seq<seq<NodeId>>, start: nat, behind: seq<NodeId>) returns (b: nat, overran: bool)
      requires start <= |buckets|
      ensures b == Filled(buckets, start)
      ensures overran <==> forall i :: start <= i < |buckets| ==> buckets[i] == []
      ensures Concat(buckets[..b]) == Concat(buckets[..start])
    {
      hide Concat;
      b, overran := start, false;
      while true
        invariant start <= b <= |buckets| && !overran
        invariant forall i :: start <= i < b ==> buckets[i] == []
        invariant Filled(buckets, b) == Filled(buckets, start)
        invariant Concat(buckets[..b]) == Concat(buckets[..start])
        decreases |buckets| - b
      {
        overran := b == |buckets|;
        if (if overran then behind else buckets[b]) != [] || b >= |buckets| {
          return;
        }
        EmptyBucketSkipped(buckets, b);
        b := b + 1;
      }
    }

    /** The alternative to a node of a hash table: its successor in its bucket, or else the first node
        of the next bucket that has any.  For the last child of all the cell behind the table is read. */
    method AfterInTable(buckets: seq<seq<NodeId>>, b: nat, node: NodeId, ghost j: nat, behind: seq<NodeId>)
      returns (alt: Option<NodeId>, overran: bool)
      requires NoDup(Concat(buckets)) && b < |buckets| && j < |buckets[b]| && buckets[b][j] == node
      ensures var i := |Concat(buckets[..b])| + j;
              && i < |Concat(buckets)| && Concat(buckets)[i] == node
              && alt == (if i + 1 < |Concat(buckets)| then Some(Concat(buckets)[i + 1]) else None)
              && (overran <==> i + 1 == |Concat(buckets)|)
    {
      ConcatTake(buckets, b);
      NextBucketNew(buckets, b);
      NextOfAt(buckets[b], j);
      ConcatAt(buckets, b, j);
      alt, overran := NextOf(buckets[b], node), false;
      if alt == None {
        var next;
        next, overran := FirstFilled(buckets, b + 1, behind);
        NextBucketAt(buckets, b, next);
        if next < |buckets| {
          alt := Some(buckets[next][0]);
        }
      } else {
        ConcatAt(buckets, b, j + 1);
      }
    }

    /** The table has two buckets and one node, in the first. */
    method TwoBuckets(behind: seq<NodeId>) returns (alt: Option<NodeId>, overran: bool)
      ensures overran && alt == None
    {
      assert Concat([[7], []]) == [7];
      alt, overran := AfterInTable([[7], []], 0, 7, 0, behind);
    }

    /** A field that is not exact: the node to try, the first child or the one from a frame, and its
        alternative. */
    method Visit(parent: NodeId, from: Option<NodeId>)
      returns (node: NodeId, alt: Option<NodeId>, overran: bool, ghost i: nat)
      requires Shape(nodes, path, types, hash, None) && parent in nodes && Siblings(nodes[parent].kids) != []
      requires from.Some? ==> from.value in Siblings(nodes[parent].kids)
      ensures i < |Siblings(nodes[parent].kids)| && Siblings(nodes[parent].kids)[i] == node
      ensures if from.Some? then node == from.value else i == 0
      ensures alt == if i + 1 < |Siblings(nodes[parent].kids)| then Some(Siblings(nodes[parent].kids)[i + 1]) else None
      ensures overran <==> nodes[parent].kids.Table? && alt == None
    {
      var kids := nodes[parent].kids;
      overran := false;
      assert KidsOk(nodes, hash, parent);
      if kids.Table? {
        var b, j := BucketToVisit(parent, from);
        node := if from.Some? then from.value else kids.buckets[b][0];
        var behind: seq<NodeId> := *;
        alt, overran := AfterInTable(kids.buckets, b, node, j, behind);
        i := |Concat(kids.buckets[..b])| + j;
      } else {
        node := if from.Some? then from.value else kids.ids[0];
        i :| 0 <= i < |kids.ids| && kids.ids[i] == node && (from.None? ==> i == 0);
        NextOfAt(kids.ids, i);
        alt := NextOf(kids.ids, node);
      }
    }

    /** The first bucket with nodes, or the bucket that a node points back to. */
    method BucketToVisit(parent: NodeId, from: Option<NodeId>) returns (b: nat, ghost j: nat)
      requires Shape(nodes, path, types, hash, None) && parent in nodes && nodes[parent].kids.Table?
      requires Siblings(nodes[parent].kids) != []
      requires from.Some? ==> from.value in Siblings(nodes[parent].kids)
      ensures b < |nodes[parent].kids.buckets| && j < |nodes[parent].kids.buckets[b]|
      ensures if from.Some? then nodes[parent].kids.buckets[b][j] == from.value
              else |Concat(nodes[parent].kids.buckets[..b])| + j == 0
    {
      var kids := nodes[parent].kids;
      assert KidsOk(nodes, hash, parent);
      if from.None? {
        var behind: seq<NodeId> := *;
        var overran;
        b, overran := FirstFilled(kids.buckets, 0, behind);
        assert kids.buckets[..|kids.buckets|] == kids.buckets;
        assert !overran;
        j := 0;
      } else {
        ChildrenIn(nodes, hash, parent);
        TableLookup(nodes, hash, kids, nodes[from.value].data, from.value);
        assert BucketOk(nodes, hash, kids.buckets, hash(nodes[from.value].data) % |kids.buckets|);
        b := nodes[from.value].bucket;
        j :| 0 <= j < |kids.buckets[b]| && kids.buckets[b][j] == from.value;
      }
    }

    /** An exact field: the child with its key, if there is one. */
    method TryExact(parent: NodeId, stack: seq<MatchField>, ghost m: seq<MatchField>, ghost vec: seq<NodeId>,
        ghost j: Job, ghost jobs: seq<Job>, ghost overran: bool)
      returns (hit: Option<NodeId>)
      requires Shape(nodes, path, types, hash, None) && MatchTypes(m) == types
      requires Before(nodes, path, recs, m, vec, j, jobs, overran) && parent == j.p && stack == j.stack
               && stack[0].Exact?
      ensures Tried(nodes, path, recs, m, vec, j, jobs, overran, hit, jobs)
    {
      hide Reading, Searching, Pending, Cover, Parents;
      assert KidsOk(nodes, hash, parent);
      var count;
      hit, count := FindChild(parent, AtomKey(stack[0].atom));
      ReadingExact(nodes, path, hash, recs, m, vec, j, jobs, overran, hit);
      if hit.Some? {
        ChooseExact(nodes, path, hash, recs, m, vec, j, jobs, hit.value);
      } else {
        ChooseNone(nodes, path, hash, recs, m, vec, j, jobs);
      }
    }

    /** A field that is not exact: the next child, with the one after it on the continuation stack. */
    method TryAny(from: Option<NodeId>, parent: NodeId, stack: seq<MatchField>, ghost m: seq<MatchField>,
        ghost vec: seq<NodeId>, cont: seq<Frame>, ghost j: Job, ghost jobs: seq<Job>, ghost overran: bool)
      returns (node: NodeId, cont': seq<Frame>, over: bool, ghost jobs': seq<Job>)
      requires Shape(nodes, path, types, hash, None) && MatchTypes(m) == types
      requires Before(nodes, path, recs, m, vec, j, jobs, overran) && Current(nodes, from, j)
      requires parent == j.p && stack == j.stack && stack[0].Any? && Frames(cont, jobs)
      ensures Frames(cont', jobs')
      ensures Tried(nodes, path, recs, m, vec, j, jobs, overran || over, Some(node), jobs')
    {
      hide Reading, Tried, Frames, Searching, Pending;
      assert KidsOk(nodes, hash, parent) && JobOk(nodes, path, m, j);
      var alt;
      ghost var i;
      node, alt, over, i := Visit(parent, from);
      jobs' := TriedAny(nodes, path, types, hash, recs, m, vec, cont, j, jobs, overran, from, node, alt, over, i);
      cont' := if alt.Some? then [Frame(alt.value, stack)] + cont else cont;
    }

    /** One round of the search: the child to go on with, if any, with the alternative on the
        continuation stack. */
    method TryNode(from: Option<NodeId>, parent: NodeId, stack: seq<MatchField>, ghost m: seq<MatchField>,
        ghost vec: seq<NodeId>, cont: seq<Frame>, ghost j: Job, ghost jobs: seq<Job>, ghost overran: bool)
      returns (hit: Option<NodeId>, cont': seq<Frame>, over: bool, ghost jobs': seq<Job>)
      requires Shape(nodes, path, types, hash, None) && MatchTypes(m) == types
      requires Before(nodes, path, recs, m, vec, j, jobs, overran) && Current(nodes, from, j) && parent == j.p
               && stack == j.stack
      requires Frames(cont, jobs)
      ensures Frames(cont', jobs') && |cont'| == |jobs'|
      ensures Tried(nodes, path, recs, m, vec, j, jobs, overran || over, hit, jobs')
      ensures hit.None? ==> Between(nodes, path, recs, m, vec, jobs', overran || over)
      ensures hit.None? ==> Cover(path, jobs') < BelowAny(path, j.ids) + Cover(path, jobs)
    {
      hide Shape, Before, Between;
      if stack[0].Exact? {
        hit := TryExact(parent, stack, m, vec, j, jobs, overran);
        cont', over, jobs' := cont, false, jobs;
      } else {
        var node;
        node, cont', over, jobs' := TryAny(from, parent, stack, m, vec, cont, j, jobs, overran);
        hit := Some(node);
      }
    }

    /** `match_predicate`: every leaf whose tuple agrees with all exact fields, and no other, once.  The
        cell behind a hash table is read exactly when a search goes through a table. */
    method MatchPredicate(m: seq<MatchField>) returns (vec: seq<NodeId>, overran: bool)
      requires Valid() && MatchTypes(m) == types
      ensures NoDup(vec)
      ensures forall l :: l in vec <==> l in recs && |recs[l].tuple| == |m| && Selected(m, recs[l].tuple)
      ensures !HasAnyExact(m) ==> vec == leaves
      ensures overran <==> HasAnyExact(m) && references != 0 && ScansTable(nodes, path, m)
    {
      BasicInvariants(nodes, path, types, hash, leaves, recs, references, owed);
      if !HasAnyExact(m) {
        NothingExact(nodes, path, leaves, recs, m);
        return leaves, false;
      }
      if references == 0 {
        return [], false;
      }
      vec, overran := Search(m);
    }

    method Search(m: seq<MatchField>) returns (vec: seq<NodeId>, overran: bool)
      requires Ready(None) && MatchTypes(m) == types && HasAnyExact(m) && leaves != []
      ensures NoDup(vec)
      ensures forall l :: l in vec <==> l in recs && |recs[l].tuple| == |m| && Selected(m, recs[l].tuple)
      ensures overran <==> ScansTable(nodes, path, m)
    {
      hide Before, Between, Tried, Shape, LeavesOk, ScansTable, Frames;
      Begin(nodes, path, hash, leaves, recs, m);
      var parent, stack, from := ROOT, m, None;
      var cont: seq<Frame> := [];
      ghost var j, jobs := Job(ROOT, Siblings(nodes[ROOT].kids), m), [];
      vec, overran := [], false;
      while true
        invariant Before(nodes, path, recs, m, vec, j, jobs, overran) && Current(nodes, from, j) && parent == j.p
                  && stack == j.stack
        invariant Frames(cont, jobs)
        decreases BelowAny(path, j.ids) + Cover(path, jobs)
      {
        var hit, over;
        ghost var jobs0 := jobs;
        hit, cont, over, jobs := TryNode(from, parent, stack, m, vec, cont, j, jobs, overran);
        overran := overran || over;
        if hit.Some? {
          GoDown(nodes, path, hash, leaves, recs, m, vec, j, jobs0, overran, hit.value, jobs);
          stack := Narrow(stack, nodes[hit.value].data);
          if !nodes[hit.value].kids.Leaf? {
            parent, from := hit.value, None;
            j := Job(parent, Siblings(nodes[parent].kids), stack);
            continue;
          }
          vec := vec + [hit.value];
        }
        GoBack(nodes, path, hash, leaves, recs, m, vec, jobs, cont, overran);
        if cont == [] {
          return;
        }
        parent, from, stack := nodes[cont[0].next].parent, Some(cont[0].next), cont[0].stack;
        cont := cont[1..];
        j, jobs := jobs[0], jobs[1..];
      }
    }
  }
}
