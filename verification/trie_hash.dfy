/**
  The hash tables that long child lists of a trie become (`trie_hash` in predicates/db/trie.hpp).
*/
module TrieHash {
  import opened Common
  import opened Tuples
  import opened TrieShape

  /** In a hash table a child with the given key is in the key's bucket. */
  lemma TableLookup(nodes: Heap, hash: Key -> nat, kids: Kids, key: Key, s: NodeId)
    requires TableOk(nodes, hash, kids) && kids.Table? && kids.buckets != []
    requires s in Siblings(kids) && s in nodes && nodes[s].data == key
    ensures s in kids.buckets[hash(key) % |kids.buckets|]
  {
    ConcatMember(kids.buckets, s);
    var b :| 0 <= b < |kids.buckets| && s in kids.buckets[b];
    assert BucketOk(nodes, hash, kids.buckets, b);
  }

  lemma BucketMember(buckets: seq<seq<NodeId>>, b: nat)
    requires b < |buckets|
    ensures forall c :: c in buckets[b] ==> c in Concat(buckets)
  {
    forall c | c in buckets[b] ensures c in Concat(buckets) {
      ConcatMember(buckets, c);
    }
  }

  lemma TableNotEmpty(nodes: Heap, hash: Key -> nat, kids: Kids)
    requires TableOk(nodes, hash, kids) && kids.Table?
    ensures kids.buckets != [] && Concat(kids.buckets) != []
  {
  }

  lemma ChildrenIn(nodes: Heap, hash: Key -> nat, p: NodeId)
    requires p in nodes && KidsOk(nodes, hash, p)
    ensures forall c :: c in Siblings(nodes[p].kids) ==> c in nodes
  {
    forall c | c in Siblings(nodes[p].kids) ensures c in nodes {
      assert ChildOf(nodes, p, c);
    }
  }

  // ---------------------------------------------------------------- one child more or less

  function BucketFor(kids: Kids, hash: Key -> nat, key: Key): nat {
    if kids.Table? && kids.buckets != [] then hash(key) % |kids.buckets| else 0
  }

  /** The children with `c` in front of the list or of the given bucket. */
  function WithChild(kids: Kids, bucket: nat, c: NodeId): Kids {
    match kids
    case Leaf => kids
    case Chain(ids) => Chain([c] + ids)
    case Table(buckets, total) =>
      if bucket < |buckets| then Table(buckets[bucket := [c] + buckets[bucket]], total + 1) else kids
  }

  lemma WithChildOk(nodes: Heap, hash: Key -> nat, p: NodeId, c: NodeId, node: TrieNode, nodes': Heap)
    requires p in nodes && c !in nodes && KidsOk(nodes, hash, p) && !nodes[p].kids.Leaf?
    requires node.bucket == BucketFor(nodes[p].kids, hash, node.data)
    requires nodes' == nodes[p := nodes[p].(kids := WithChild(nodes[p].kids, node.bucket, c))][c := node]
    ensures PlusChild(nodes[p].kids, nodes'[p].kids, c) && TableOk(nodes', hash, nodes'[p].kids)
  {
    var kids := nodes[p].kids;
    assert forall s :: s in Siblings(kids) ==> ChildOf(nodes, p, s);
    if kids.Table? {
      TableNotEmpty(nodes, hash, kids);
      InsertInBucket(kids.buckets, node.bucket, c);
      InsertBucketsOk(nodes, nodes', hash, kids.buckets, node.bucket, c);
    } else {
      NoDupFront(c, kids.ids);
    }
  }

  /** All buckets stay in order when a node is put in front of its bucket. */
  lemma InsertBucketsOk(nodes: Heap, nodes': Heap, hash: Key -> nat, buckets: seq<seq<NodeId>>, b: nat, c: NodeId)
    requires forall i :: 0 <= i < |buckets| ==> BucketOk(nodes, hash, buckets, i)
    requires forall s :: s in Concat(buckets) && s in nodes ==>
               s in nodes' && nodes'[s].data == nodes[s].data && nodes'[s].bucket == nodes[s].bucket
    requires b < |buckets| && c in nodes' && nodes'[c].bucket == b && b == hash(nodes'[c].data) % |buckets|
    ensures var buckets' := buckets[b := [c] + buckets[b]];
            forall i :: 0 <= i < |buckets'| ==> BucketOk(nodes', hash, buckets', i)
  {
    var buckets' := buckets[b := [c] + buckets[b]];
    forall i | 0 <= i < |buckets'| ensures BucketOk(nodes', hash, buckets', i) {
      assert BucketOk(nodes, hash, buckets, i);
      BucketMember(buckets, i);
    }
  }

  predicate NoChildren(kids: Kids) {
    kids == Chain([])
  }

  /** The children without `n`, which sits in the given bucket if they are hashed; an empty hash
      table is given up. */
  function WithoutChild(kids: Kids, bucket: nat, n: NodeId): Kids {
    match kids
    case Leaf => kids
    case Chain(ids) => Chain(Without(ids, n))
    case Table(buckets, total) =>
      if total <= 1 || bucket >= |buckets| then Chain([])
      else Table(buckets[bucket := Without(buckets[bucket], n)], total - 1)
  }

  lemma WithoutChildOk(nodes: Heap, hash: Key -> nat, p: NodeId, n: NodeId, kids: Kids, nodes': Heap)
    requires p in nodes && KidsOk(nodes, hash, p) && n in Siblings(nodes[p].kids) && n in nodes && n != p
    requires kids == WithoutChild(nodes[p].kids, nodes[n].bucket, n)
    requires nodes' == nodes[p := nodes[p].(kids := kids)] - {n}
    ensures MinusChild(nodes[p].kids, kids, n) && TableOk(nodes', hash, kids)
    ensures NoChildren(kids) <==> Siblings(kids) == []
  {
    var olds := nodes[p].kids;
    if olds.Chain? {
      WithoutIs(olds.ids, n);
    } else {
      var buckets, b := olds.buckets, nodes[n].bucket;
      TableLookup(nodes, hash, olds, nodes[n].data, n);
      assert BucketOk(nodes, hash, buckets, hash(nodes[n].data) % |buckets|);
      RemoveFromBucket(buckets, b, n);
      RemoveBucketsOk(nodes, nodes', hash, buckets, b, n);
    }
  }

  lemma RemoveBucketsOk(nodes: Heap, nodes': Heap, hash: Key -> nat, buckets: seq<seq<NodeId>>, b: nat, n: NodeId)
    requires forall i :: 0 <= i < |buckets| ==> BucketOk(nodes, hash, buckets, i)
    requires NoDup(Concat(buckets)) && b < |buckets| && n in buckets[b]
    requires forall s :: s in nodes && s != n ==>
               s in nodes' && nodes'[s].data == nodes[s].data && nodes'[s].bucket == nodes[s].bucket
    ensures var buckets' := buckets[b := Without(buckets[b], n)];
            forall i :: 0 <= i < |buckets'| ==> BucketOk(nodes', hash, buckets', i)
  {
    ConcatUpdate(buckets, b, buckets[b]);
    NoDupMiddle(Concat(buckets[..b]), buckets[b], Concat(buckets[b + 1..]));
    WithoutIs(buckets[b], n);
    var buckets' := buckets[b := Without(buckets[b], n)];
    forall i | 0 <= i < |buckets'| ensures BucketOk(nodes', hash, buckets', i) {
      assert BucketOk(nodes, hash, buckets, i) && BucketOk(nodes, hash, buckets, b);
    }
  }

  // ---------------------------------------------------------------- moving all children to new buckets

  /** Which child each lookup finds is the same as before, and nothing but `p` changed its container. */
  ghost predicate SameLookups(nodes: Heap, nodes': Heap, p: NodeId) {
    && nodes'.Keys == nodes.Keys && p in nodes && SameChildren(nodes[p].kids, nodes'[p].kids)
    && forall n :: n in nodes ==> nodes'[n].data == nodes[n].data && (n != p ==> nodes'[n].kids == nodes[n].kids)
  }

  /** Only the back pointers of `moved` nodes differ. */
  ghost predicate Rebucketed(nodes: Heap, nodes': Heap, moved: seq<NodeId>) {
    && nodes'.Keys == nodes.Keys
    && forall n :: n in nodes ==>
         nodes'[n] == nodes[n].(bucket := nodes'[n].bucket) && (n !in moved ==> nodes'[n] == nodes[n])
  }

  /** The buckets hold exactly the nodes of `base` and `moved`, each once and in its place. */
  ghost predicate Gathers(nodes: Heap, hash: Key -> nat, buckets: seq<seq<NodeId>>, base: seq<NodeId>,
      moved: seq<NodeId>)
  {
    && NoDup(Concat(buckets)) && |Concat(buckets)| == |base| + |moved|
    && (forall x :: x in Concat(buckets) <==> x in base || x in moved)
    && (forall b :: 0 <= b < |buckets| ==> BucketOk(nodes, hash, buckets, b))
  }

  lemma EmptyGathers(nodes: Heap, hash: Key -> nat, buckets: seq<seq<NodeId>>)
    requires forall b :: 0 <= b < |buckets| ==> buckets[b] == []
    ensures Gathers(nodes, hash, buckets, [], [])
  {
    ConcatEmpty(buckets);
  }

  lemma NextNew(ids: seq<NodeId>, i: nat)
    requires NoDup(ids) && i < |ids|
    ensures ids[i] !in ids[..i] && ids[..i + 1] == ids[..i] + [ids[i]]
  {
    forall j | 0 <= j < i ensures ids[j] != ids[i] {
      assert Differ(ids, j, i);
    }
  }

  lemma GatherOne(nodes: Heap, nodes': Heap, hash: Key -> nat, buckets: seq<seq<NodeId>>, base: seq<NodeId>,
      moved: seq<NodeId>, b: nat, c: NodeId)
    requires Gathers(nodes, hash, buckets, base, moved) && c in nodes && c !in base && c !in moved
    requires buckets != [] && b == hash(nodes[c].data) % |buckets| && nodes' == nodes[c := nodes[c].(bucket := b)]
    ensures Gathers(nodes', hash, buckets[b := [c] + buckets[b]], base, moved + [c])
  {
    InsertInBucket(buckets, b, c);
    InsertBucketsOk(nodes, nodes', hash, buckets, b, c);
  }

  lemma RebucketOne(nodes: Heap, nodes1: Heap, nodes2: Heap, moved: seq<NodeId>, b: nat, c: NodeId)
    requires Rebucketed(nodes, nodes1, moved) && c in nodes1 && nodes2 == nodes1[c := nodes1[c].(bucket := b)]
    ensures Rebucketed(nodes, nodes2, moved + [c])
  {
  }

  /** The next bucket shares no node with those before it. */
  lemma NextBucketNew(buckets: seq<seq<NodeId>>, i: nat)
    requires i < |buckets| && NoDup(Concat(buckets))
    ensures NoDup(buckets[i]) && forall c :: c in buckets[i] ==> c !in Concat(buckets[..i]) && c in Concat(buckets)
  {
    ConcatUpdate(buckets, i, buckets[i]);
    NoDupMiddle(Concat(buckets[..i]), buckets[i], Concat(buckets[i + 1..]));
    forall c | c in buckets[i] ensures c in Concat(buckets) {
      ConcatMember(buckets, c);
    }
  }

  lemma GatherMore(nodes0: Heap, nodes1: Heap, nodes2: Heap, hash: Key -> nat, buckets1: seq<seq<NodeId>>,
      buckets2: seq<seq<NodeId>>, moved: seq<NodeId>, more: seq<NodeId>)
    requires Rebucketed(nodes0, nodes1, moved) && Rebucketed(nodes1, nodes2, more)
    requires Gathers(nodes1, hash, buckets1, [], moved) && Gathers(nodes2, hash, buckets2, Concat(buckets1), more)
    ensures Rebucketed(nodes0, nodes2, moved + more) && Gathers(nodes2, hash, buckets2, [], moved + more)
  {
  }

  lemma Rehashed(nodes: Heap, moved: Heap, hash: Key -> nat, p: NodeId, buckets: seq<seq<NodeId>>, total: nat,
      nodes': Heap)
    requires p in nodes && Rebucketed(nodes, moved, Siblings(nodes[p].kids))
    requires Siblings(nodes[p].kids) != [] && total == |Siblings(nodes[p].kids)|
    requires nodes' == moved[p := moved[p].(kids := Table(buckets, total))]
    requires Gathers(moved, hash, buckets, [], Siblings(nodes[p].kids))
    ensures SameChildren(nodes[p].kids, nodes'[p].kids) && TableOk(nodes', hash, nodes'[p].kids)
    ensures forall n :: n in nodes ==>
               nodes'[n] == nodes[n].(kids := nodes'[n].kids, bucket := nodes'[n].bucket)
               && (n != p ==> nodes'[n].kids == nodes[n].kids)
               && (n !in Siblings(nodes[p].kids) ==> nodes'[n].bucket == nodes[n].bucket)
  {
    forall b | 0 <= b < |buckets| ensures BucketOk(nodes', hash, buckets, b) {
      assert BucketOk(moved, hash, buckets, b);
    }
  }

  // ---------------------------------------------------------------- going through all children

  lemma EmptyBucketSkipped(buckets: seq<seq<NodeId>>, b: nat)
    requires b < |buckets| && buckets[b] == []
    ensures Filled(buckets, b) == Filled(buckets, b + 1)
    ensures Concat(buckets[..b + 1]) == Concat(buckets[..b])
  {
    ConcatTake(buckets, b);
  }

  /** The list that a lookup goes through: all children, or those in the key's bucket. */
  function Lookup(kids: Kids, hash: Key -> nat, key: Key): seq<NodeId> {
    match kids
    case Leaf => []
    case Chain(ids) => ids
    case Table(buckets, _) => if buckets == [] then [] else buckets[hash(key) % |buckets|]
  }

  /** The `next` pointer of `c` in its list. */
  function NextOf(ids: seq<NodeId>, c: NodeId): Option<NodeId> {
    if |ids| < 2 then None
    else if ids[0] == c then Some(ids[1])
    else NextOf(ids[1..], c)
  }

  lemma {:induction false} NextOfAt(ids: seq<NodeId>, i: nat)
    requires NoDup(ids) && i < |ids|
    ensures NextOf(ids, ids[i]) == if i + 1 < |ids| then Some(ids[i + 1]) else None
  {
    NoDupTail(ids);
    if i > 0 {
      NextOfAt(ids[1..], i - 1);
    }
  }

  /** The first bucket from `start` on that has nodes, or the end of the table. */
  function Filled(buckets: seq<seq<NodeId>>, start: nat): (b: nat)
    requires start <= |buckets|
    ensures start <= b <= |buckets| && (b < |buckets| ==> buckets[b] != [])
    ensures b == |buckets| <==> forall i :: start <= i < |buckets| ==> buckets[i] == []
    decreases |buckets| - start
  {
    if start == |buckets| || buckets[start] != [] then start else Filled(buckets, start + 1)
  }

  /** Where a bucket's nodes are among all children. */
  lemma ConcatAt(buckets: seq<seq<NodeId>>, b: nat, j: nat)
    requires b < |buckets| && j < |buckets[b]|
    ensures |Concat(buckets[..b])| + j < |Concat(buckets)|
    ensures Concat(buckets)[|Concat(buckets[..b])| + j] == buckets[b][j]
  {
    ConcatUpdate(buckets, b, []);
  }

  /** The node after the last one of bucket `b` is the first one of the next bucket `next` that has any. */
  lemma NextBucketAt(buckets: seq<seq<NodeId>>, b: nat, next: nat)
    requires b < |buckets| && b < next <= |buckets| && Concat(buckets[..next]) == Concat(buckets[..b + 1])
    requires next < |buckets| ==> buckets[next] != []
    ensures var i := |Concat(buckets[..b])| + |buckets[b]|;
            if next < |buckets| then i < |Concat(buckets)| && Concat(buckets)[i] == buckets[next][0]
            else i == |Concat(buckets)|
  {
    ConcatTake(buckets, b);
    if next < |buckets| {
      ConcatAt(buckets, next, 0);
    } else {
      assert buckets[..next] == buckets;
    }
  }
}
