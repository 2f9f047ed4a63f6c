/**
  Removing a whole branch of a trie: the sets of nodes concerned, and what becomes of the leaf list.
*/
module TrieCut {
  import opened Common
  import opened Tuples
  import opened TrieShape
  import opened TrieContents
  import opened TrieLeaves
  import opened TrieAccounts
  import opened TrieHash

  /** The nodes at or below `n`. */
  ghost function Below(path: Paths, n: NodeId): set<NodeId>
    requires n in path
  {
    set m | m in path && path[n] <= path[m]
  }

  /** The nodes at or below one of `ids`. */
  ghost function BelowAny(path: Paths, ids: seq<NodeId>): set<NodeId> {
    set m | m in path && UnderOne(path, ids, m)
  }

  ghost predicate UnderOne(path: Paths, ids: seq<NodeId>, m: NodeId)
    requires m in path
  {
    exists c :: c in ids && c in path && path[c] <= path[m]
  }

  lemma BelowAnySnoc(path: Paths, ids: seq<NodeId>, c: NodeId)
    requires c in path
    ensures BelowAny(path, ids + [c]) == BelowAny(path, ids) + Below(path, c)
  {
    forall m | m in path
      ensures UnderOne(path, ids + [c], m) <==> UnderOne(path, ids, m) || path[c] <= path[m]
    {
      if UnderOne(path, ids, m) {
        var d :| d in ids && d in path && path[d] <= path[m];
        assert d in ids + [c];
      }
      if path[c] <= path[m] {
        assert c in ids + [c];
      }
    }
  }

  lemma BelowAnyAppend(path: Paths, a: seq<NodeId>, b: seq<NodeId>)
    ensures BelowAny(path, a + b) == BelowAny(path, a) + BelowAny(path, b)
  {
    forall m | m in path
      ensures UnderOne(path, a + b, m) <==> UnderOne(path, a, m) || UnderOne(path, b, m)
    {
      if UnderOne(path, a, m) {
        var d :| d in a && d in path && path[d] <= path[m];
        assert d in a + b;
      }
      if UnderOne(path, b, m) {
        var d :| d in b && d in path && path[d] <= path[m];
        assert d in a + b;
      }
    }
  }

  /** One more child of `p` is removed after the children `done`. */
  lemma NextBranch(nodes: Heap, path: Paths, types: seq<Type>, hash: Key -> nat, p: NodeId, ids: seq<NodeId>, i: nat)
    requires Shape(nodes, path, types, hash, None) && p in nodes && NoDup(ids) && i < |ids|
    requires forall c :: c in ids ==> c in Siblings(nodes[p].kids)
    ensures ids[i] in path
    ensures BelowAny(path, ids[..i + 1]) == BelowAny(path, ids[..i]) + Below(path, ids[i])
    ensures BelowAny(path, ids[..i]) !! Below(path, ids[i])
    ensures Below(path, ids[i]) <= BelowAny(path, ids)
  {
    var c := ids[i];
    assert c in ids;
    ChildPath(nodes, path, types, hash, None, p, c);
    NextNew(ids, i);
    assert ids[..i + 1] == ids[..i] + [c];
    BelowAnySnoc(path, ids[..i], c);
    BelowOne(path, c);
    GroupsApart(nodes, path, types, hash, p, ids[..i], [c]);
  }

  /** One more bucket of `p` is emptied after the first `i`. */
  lemma NextBucket(nodes: Heap, path: Paths, types: seq<Type>, hash: Key -> nat, p: NodeId, buckets: seq<seq<NodeId>>,
      i: nat)
    requires Shape(nodes, path, types, hash, None) && p in nodes && Siblings(nodes[p].kids) == Concat(buckets)
             && i < |buckets|
    ensures NoDup(buckets[i]) && forall c :: c in buckets[i] ==> c in Siblings(nodes[p].kids)
    ensures BelowAny(path, Concat(buckets[..i + 1])) == BelowAny(path, Concat(buckets[..i])) + BelowAny(path, buckets[i])
    ensures BelowAny(path, Concat(buckets[..i])) !! BelowAny(path, buckets[i])
    ensures BelowAny(path, buckets[i]) <= BelowAny(path, Concat(buckets))
  {
    assert KidsOk(nodes, hash, p);
    ConcatTake(buckets, i);
    NextBucketNew(buckets, i);
    BelowAnyAppend(path, Concat(buckets[..i]), buckets[i]);
    ConcatUpdate(buckets, i, buckets[i]);
    BelowAnyAppend(path, Concat(buckets[..i]) + buckets[i], Concat(buckets[i + 1..]));
    GroupsApart(nodes, path, types, hash, p, buckets[i], Concat(buckets[..i]));
  }

  /** All that is properly below a node is below its children. */
  lemma BelowChildren(nodes: Heap, path: Paths, types: seq<Type>, hash: Key -> nat, p: NodeId)
    requires Shape(nodes, path, types, hash, None) && p in nodes
    ensures BelowAny(path, Siblings(nodes[p].kids)) == Below(path, p) - {p}
  {
    var ids := Siblings(nodes[p].kids);
    forall m | m in path ensures UnderOne(path, ids, m) <==> path[p] <= path[m] && m != p {
      if UnderOne(path, ids, m) {
        var c :| c in ids && c in path && path[c] <= path[m];
        ChildPath(nodes, path, types, hash, None, p, c);
        PrefixTrans(path[p], path[c], path[m]);
      }
      if path[p] <= path[m] && m != p {
        assert SamePath(path, p, m) ==> p == m;
        var c := ChildOnPath(nodes, path, types, hash, None, p, m);
        assert c in ids;
      }
    }
  }

  /** Nothing is below two siblings. */
  lemma SiblingsApart(nodes: Heap, path: Paths, types: seq<Type>, hash: Key -> nat, p: NodeId, c: NodeId, d: NodeId,
      m: NodeId)
    requires Shape(nodes, path, types, hash, None) && p in nodes && m in nodes
    requires c in Siblings(nodes[p].kids) && d in Siblings(nodes[p].kids) && c in nodes && d in nodes
    requires path[c] <= path[m] && path[d] <= path[m]
    ensures c == d
  {
    ChildPath(nodes, path, types, hash, None, p, c);
    ChildPath(nodes, path, types, hash, None, p, d);
    assert path[c] == path[m][..|path[c]|] && path[d] == path[m][..|path[d]|];
    assert SamePath(path, c, d);
  }

  // ---------------------------------------------------------------- the leaf list

  ghost function Keep(leaves: seq<NodeId>, gone: set<NodeId>): seq<NodeId> {
    if leaves == [] then []
    else (if leaves[0] in gone then [] else [leaves[0]]) + Keep(leaves[1..], gone)
  }

  lemma {:induction false} KeepKeep(leaves: seq<NodeId>, a: set<NodeId>, b: set<NodeId>)
    ensures Keep(Keep(leaves, a), b) == Keep(leaves, a + b)
  {
    if leaves != [] {
      KeepKeep(leaves[1..], a, b);
      var rest := Keep(leaves[1..], a);
      if leaves[0] in a {
        assert [] + rest == rest;
      } else {
        assert ([leaves[0]] + rest)[1..] == rest;
      }
    }
  }

  lemma {:induction false} KeepMember(leaves: seq<NodeId>, gone: set<NodeId>)
    ensures forall x :: x in Keep(leaves, gone) <==> x in leaves && x !in gone
  {
    if leaves != [] {
      KeepMember(leaves[1..], gone);
      assert forall x :: x in leaves <==> x == leaves[0] || x in leaves[1..];
    }
  }

  lemma {:induction false} KeepNoDup(leaves: seq<NodeId>, gone: set<NodeId>)
    requires NoDup(leaves)
    ensures NoDup(Keep(leaves, gone))
  {
    if leaves != [] {
      NoDupTail(leaves);
      KeepNoDup(leaves[1..], gone);
      KeepMember(leaves[1..], gone);
      var rest := Keep(leaves[1..], gone);
      if leaves[0] in gone {
        assert [] + rest == rest;
      } else {
        NoDupFront(leaves[0], rest);
      }
    }
  }

  lemma {:induction false} KeepAll(leaves: seq<NodeId>, gone: set<NodeId>)
    requires forall x :: x in leaves ==> x !in gone
    ensures Keep(leaves, gone) == leaves
  {
    if leaves != [] {
      assert leaves[0] in leaves;
      KeepAll(leaves[1..], gone);
    }
  }

  lemma {:induction false} KeepOne(leaves: seq<NodeId>, n: NodeId)
    requires NoDup(leaves) && n in leaves
    ensures Keep(leaves, {n}) == Without(leaves, n)
  {
    NoDupTail(leaves);
    if leaves[0] == n {
      KeepAll(leaves[1..], {n});
    } else {
      KeepOne(leaves[1..], n);
    }
  }

  /** The leaves of the nodes in `gone` have been unlinked and freed. */
  ghost predicate LeavesGone(leaves: seq<NodeId>, recs: Recs, leaves': seq<NodeId>, recs': Recs, gone: set<NodeId>) {
    recs' == recs - gone && leaves' == Keep(leaves, gone)
  }

  lemma LeavesGoneTwice(leaves: seq<NodeId>, recs: Recs, leaves1: seq<NodeId>, recs1: Recs, leaves2: seq<NodeId>,
      recs2: Recs, a: set<NodeId>, b: set<NodeId>)
    requires LeavesGone(leaves, recs, leaves1, recs1, a) && LeavesGone(leaves1, recs1, leaves2, recs2, b)
    ensures LeavesGone(leaves, recs, leaves2, recs2, a + b)
  {
    KeepKeep(leaves, a, b);
    assert (recs - a) - b == recs - (a + b);
  }

  lemma ContentsCons(leaves: seq<NodeId>, recs: Recs)
    requires leaves != [] && forall m :: m in leaves ==> m in recs
    ensures ContentsOf(leaves, recs)[0] == Entry(recs[leaves[0]].tuple, recs[leaves[0]].count)
    ensures ContentsOf(leaves, recs)[1..] == ContentsOf(leaves[1..], recs)
  {
    assert leaves[0] in leaves;
  }

  /** The same, with the sum of the counts that went away. */
  ghost predicate Gone(leaves: seq<NodeId>, recs: Recs, leaves': seq<NodeId>, recs': Recs, gone: set<NodeId>,
      count: int)
  {
    && LeavesGone(leaves, recs, leaves', recs', gone)
    && (forall n :: n in leaves ==> n in recs) && (forall n :: n in leaves' ==> n in recs')
    && Total(ContentsOf(leaves', recs')) == Total(ContentsOf(leaves, recs)) - count
  }

  lemma GoneTwice(leaves: seq<NodeId>, recs: Recs, leaves1: seq<NodeId>, recs1: Recs, leaves2: seq<NodeId>, recs2: Recs,
      a: set<NodeId>, b: set<NodeId>, count1: int, count2: int)
    requires Gone(leaves, recs, leaves1, recs1, a, count1) && Gone(leaves1, recs1, leaves2, recs2, b, count2)
    ensures Gone(leaves, recs, leaves2, recs2, a + b, count1 + count2)
  {
    LeavesGoneTwice(leaves, recs, leaves1, recs1, leaves2, recs2, a, b);
  }

  lemma NothingGone(leaves: seq<NodeId>, recs: Recs)
    requires forall n :: n in leaves ==> n in recs
    ensures Gone(leaves, recs, leaves, recs, {}, 0)
  {
    KeepAll(leaves, {});
    assert recs - {} == recs;
  }

  /** The total of the counts without one leaf. */
  lemma {:induction false} TotalWithout(leaves: seq<NodeId>, recs: Recs, n: NodeId)
    requires NoDup(leaves) && n in leaves && forall m :: m in leaves ==> m in recs
    ensures forall m :: m in Keep(leaves, {n}) ==> m in recs - {n}
    ensures Total(ContentsOf(Keep(leaves, {n}), recs - {n})) == Total(ContentsOf(leaves, recs)) - recs[n].count
  {
    KeepMember(leaves, {n});
    NoDupTail(leaves);
    ContentsCons(leaves, recs);
    var rest := Keep(leaves[1..], {n});
    if leaves[0] == n {
      KeepAll(leaves[1..], {n});
      assert Keep(leaves, {n}) == rest;
      assert ContentsOf(rest, recs - {n}) == ContentsOf(rest, recs);
    } else {
      TotalWithout(leaves[1..], recs, n);
      assert Keep(leaves, {n})[1..] == rest;
      ContentsCons(Keep(leaves, {n}), recs - {n});
    }
  }

  // ---------------------------------------------------------------- during the removal

  /** The nodes in `branch` are still as in the heap `nodes0`, with their leaves. */
  ghost predicate Standing(nodes0: Heap, nodes: Heap, leaves: seq<NodeId>, recs: Recs, branch: set<NodeId>) {
    && NoDup(leaves) && (forall n :: n in leaves <==> n in recs)
    && forall n :: n in branch ==>
         n in nodes0 && n in nodes && nodes[n] == nodes0[n] && (n in recs <==> nodes0[n].kids.Leaf?)
  }

  /** Removing one branch leaves another as it was. */
  lemma StillStanding(nodes0: Heap, nodes: Heap, leaves: seq<NodeId>, recs: Recs, nodes': Heap, leaves': seq<NodeId>,
      recs': Recs, branch: set<NodeId>, gone: set<NodeId>)
    requires Standing(nodes0, nodes, leaves, recs, branch) && LeavesGone(leaves, recs, leaves', recs', gone)
    requires branch !! gone && forall n :: n in branch ==> n in nodes' && nodes'[n] == nodes0[n]
    ensures Standing(nodes0, nodes', leaves', recs', branch)
  {
    KeepMember(leaves, gone);
    KeepNoDup(leaves, gone);
  }

  /** Nothing is below both of two disjoint groups of siblings. */
  lemma GroupsApart(nodes: Heap, path: Paths, types: seq<Type>, hash: Key -> nat, p: NodeId, a: seq<NodeId>,
      b: seq<NodeId>)
    requires Shape(nodes, path, types, hash, None) && p in nodes
    requires forall c :: c in a ==> c in Siblings(nodes[p].kids) && c !in b
    requires forall c :: c in b ==> c in Siblings(nodes[p].kids)
    ensures BelowAny(path, a) !! BelowAny(path, b)
  {
    forall m | m in BelowAny(path, a) && m in BelowAny(path, b) ensures false {
      var c :| c in a && c in path && path[c] <= path[m];
      var d :| d in b && d in path && path[d] <= path[m];
      SiblingsApart(nodes, path, types, hash, p, c, d, m);
    }
  }

  lemma BelowOne(path: Paths, c: NodeId)
    requires c in path
    ensures BelowAny(path, [c]) == Below(path, c)
  {
    BelowAnySnoc(path, [], c);
    assert [] + [c] == [c];
  }

  /** An inner node has no leaf to lose. */
  lemma InnerGone(leaves: seq<NodeId>, recs: Recs, leaves': seq<NodeId>, recs': Recs, below: set<NodeId>, n: NodeId,
      count: int)
    requires Gone(leaves, recs, leaves', recs', below - {n}, count) && n !in recs && n in below
    ensures Gone(leaves, recs, leaves', recs', below, count)
  {
    KeepKeep(leaves, below - {n}, {n});
    assert below - {n} + {n} == below;
    KeepMember(leaves, below - {n});
    KeepAll(leaves', {n});
    assert recs - (below - {n}) == recs - below;
  }

  /** Below a leaf there is only the leaf. */
  lemma LeafBranch(nodes: Heap, path: Paths, types: seq<Type>, hash: Key -> nat, n: NodeId, leaves: seq<NodeId>,
      recs: Recs)
    requires Shape(nodes, path, types, hash, None) && n in nodes && nodes[n].kids.Leaf?
    requires NoDup(leaves) && (forall m :: m in leaves <==> m in recs) && n in recs
    ensures Below(path, n) == {n}
    ensures Gone(leaves, recs, Without(leaves, n), recs - {n}, {n}, recs[n].count)
  {
    BelowChildren(nodes, path, types, hash, n);
    assert Below(path, n) == BelowAny(path, []) + {n};
    KeepOne(leaves, n);
    TotalWithout(leaves, recs, n);
  }

  /** The heap once everything properly below `n` is freed and `n` has no children. */
  function Emptied(nodes: Heap, branch: set<NodeId>, n: NodeId): Heap
    requires n in nodes
  {
    (nodes - (branch - {n}))[n := nodes[n].(kids := Chain([]))]
  }

  /** A child of `p` has a smaller branch. */
  lemma ChildLonger(nodes: Heap, path: Paths, types: seq<Type>, hash: Key -> nat, p: NodeId, c: NodeId)
    requires Shape(nodes, path, types, hash, None) && p in nodes && c in Siblings(nodes[p].kids)
    ensures c in nodes && Longer(path, c) < Longer(path, p)
  {
    ChildPath(nodes, path, types, hash, None, p, c);
    assert c in Longer(path, p) && c !in Longer(path, c);
  }

  /** After the first `i` children the next one is still there. */
  lemma BeforeBranch(nodes0: Heap, path: Paths, types: seq<Type>, hash: Key -> nat, p: NodeId, ids: seq<NodeId>, i: nat,
      before: Heap, leaves0: seq<NodeId>, recs0: Recs, nodes: Heap, leaves: seq<NodeId>, recs: Recs)
    requires Shape(nodes0, path, types, hash, None) && p in nodes0 && NoDup(ids) && i < |ids|
    requires forall c :: c in ids ==> c in Siblings(nodes0[p].kids)
    requires Standing(nodes0, before, leaves0, recs0, BelowAny(path, ids)) && nodes == before - BelowAny(path, ids[..i])
    requires LeavesGone(leaves0, recs0, leaves, recs, BelowAny(path, ids[..i]))
    ensures ids[i] in nodes0 && Longer(path, ids[i]) < Longer(path, p)
    ensures Standing(nodes0, nodes, leaves, recs, Below(path, ids[i]))
    ensures BelowAny(path, ids[..i + 1]) == BelowAny(path, ids[..i]) + Below(path, ids[i])
  {
    NextBranch(nodes0, path, types, hash, p, ids, i);
    ChildLonger(nodes0, path, types, hash, p, ids[i]);
    StillStanding(nodes0, before, leaves0, recs0, nodes, leaves, recs, Below(path, ids[i]), BelowAny(path, ids[..i]));
  }

  lemma BeforeBucket(nodes0: Heap, path: Paths, types: seq<Type>, hash: Key -> nat, p: NodeId,
      buckets: seq<seq<NodeId>>, i: nat, before: Heap, leaves0: seq<NodeId>, recs0: Recs, nodes: Heap,
      leaves: seq<NodeId>, recs: Recs)
    requires Shape(nodes0, path, types, hash, None) && p in nodes0 && i < |buckets|
             && Siblings(nodes0[p].kids) == Concat(buckets)
    requires Standing(nodes0, before, leaves0, recs0, BelowAny(path, Concat(buckets)))
    requires nodes == before - BelowAny(path, Concat(buckets[..i]))
    requires LeavesGone(leaves0, recs0, leaves, recs, BelowAny(path, Concat(buckets[..i])))
    ensures NoDup(buckets[i]) && forall c :: c in buckets[i] ==> c in Siblings(nodes0[p].kids)
    ensures Standing(nodes0, nodes, leaves, recs, BelowAny(path, buckets[i]))
    ensures BelowAny(path, Concat(buckets[..i + 1])) == BelowAny(path, Concat(buckets[..i])) + BelowAny(path, buckets[i])
  {
    NextBucket(nodes0, path, types, hash, p, buckets, i);
    StillStanding(nodes0, before, leaves0, recs0, nodes, leaves, recs,
                  BelowAny(path, buckets[i]), BelowAny(path, Concat(buckets[..i])));
  }

  lemma TakenTwice(nodes: Heap, a: set<NodeId>, b: set<NodeId>)
    ensures (nodes - a) - b == nodes - (a + b)
  {
  }

  lemma EmptiedAndFreed(nodes: Heap, branch: set<NodeId>, n: NodeId)
    requires n in nodes && n in branch
    ensures Emptied(nodes, branch, n) - {n} == nodes - branch
  {
  }

  lemma NoneBelow(path: Paths, nodes: Heap)
    ensures BelowAny(path, []) == {} && nodes - BelowAny(path, []) == nodes
  {
  }

  // ---------------------------------------------------------------- leading exact fields

  /** The keys of the leading exact fields. */
  ghost function LeadKeys(m: seq<MatchField>): seq<Key> {
    if m == [] || m[0].Any? then [] else [AtomKey(m[0].atom)] + LeadKeys(m[1..])
  }

  /** A tuple's path starts with those keys exactly when it agrees with those fields. */
  lemma {:induction false} LedIsPrefix(m: seq<MatchField>, tuple: seq<Value>)
    requires HasTypes(tuple, MatchTypes(m))
    ensures Led(m, tuple) <==> LeadKeys(m) <= Flat(tuple)
  {
    if m != [] && m[0].Exact? {
      assert HasType(tuple[0], MatchTypes(m)[0]);
      FlatStep(tuple);
      assert HasTypes(tuple[1..], MatchTypes(m[1..])) by {
        forall i | 0 <= i < |tuple[1..]| ensures HasType(tuple[1..][i], MatchTypes(m[1..])[i]) {
          assert HasType(tuple[i + 1], MatchTypes(m)[i + 1]);
        }
      }
      LedIsPrefix(m[1..], tuple[1..]);
      PrefixCons(AtomKey(m[0].atom), LeadKeys(m[1..]), FirstKey(tuple[0]), Flat(tuple[1..]));
    }
  }

  lemma PrefixCons(k: Key, a: seq<Key>, l: Key, b: seq<Key>)
    ensures [k] + a <= [l] + b <==> k == l && a <= b
  {
    if [k] + a <= [l] + b {
      assert ([k] + a)[0] == ([l] + b)[0];
      assert a == ([k] + a)[1..] && b == ([l] + b)[1..];
    }
  }

  /** Dropping the leaves below a node is dropping the tuples led by its keys. */
  lemma {:induction false} KeepIsDropLed(leaves: seq<NodeId>, recs: Recs, gone: set<NodeId>, m: seq<MatchField>)
    requires forall n :: n in leaves ==> n in recs && (n in gone <==> Led(m, recs[n].tuple))
    ensures forall n :: n in Keep(leaves, gone) ==> n in recs - gone
    ensures ContentsOf(Keep(leaves, gone), recs - gone) == DropLed(ContentsOf(leaves, recs), m)
  {
    KeepMember(leaves, gone);
    if leaves != [] {
      assert leaves[0] in leaves;
      KeepIsDropLed(leaves[1..], recs, gone, m);
      ContentsCons(leaves, recs);
      var kept := Keep(leaves[1..], gone);
      if leaves[0] in gone {
        assert [] + kept == kept && Keep(leaves, gone) == kept;
        NothingInFront(DropLed(ContentsOf(leaves, recs)[1..], m));
      } else {
        assert Keep(leaves, gone)[1..] == kept;
        ContentsCons(Keep(leaves, gone), recs - gone);
        ConsOfParts(ContentsOf(Keep(leaves, gone), recs - gone));
      }
    }
  }

  lemma ConsOfParts(c: seq<Entry>)
    requires c != []
    ensures c == [c[0]] + c[1..]
  {
  }

  /** The leaves below the node of the leading exact fields are those of the tuples led by them. */
  lemma BranchIsLed(nodes: Heap, path: Paths, leaves: seq<NodeId>, recs: Recs, m: seq<MatchField>, node: NodeId)
    requires LeavesOk(nodes, path, MatchTypes(m), leaves, recs) && node in path && path[node] == LeadKeys(m)
    ensures forall n :: n in leaves ==> n in recs && (n in Below(path, node) <==> Led(m, recs[n].tuple))
  {
    forall n | n in leaves ensures n in recs && (n in Below(path, node) <==> Led(m, recs[n].tuple)) {
      assert LeafOk(nodes, path, MatchTypes(m), recs, n);
      LedIsPrefix(m, recs[n].tuple);
    }
  }

  /** If the way stops before all leading fields are read, no tuple is led by them. */
  lemma NoneLed(nodes: Heap, path: Paths, hash: Key -> nat, leaves: seq<NodeId>, recs: Recs,
      m: seq<MatchField>, p: NodeId, key: Key, rest: seq<Key>)
    requires Shape(nodes, path, MatchTypes(m), hash, None) && LeavesOk(nodes, path, MatchTypes(m), leaves, recs)
    requires p in nodes && path[p] + ([key] + rest) == LeadKeys(m)
    requires forall s :: s in Siblings(nodes[p].kids) && s in nodes ==> nodes[s].data != key
    ensures forall n :: n in recs ==> !Led(m, recs[n].tuple)
  {
    forall n | n in leaves ensures n in recs && !Led(m, recs[n].tuple) {
      assert LeafOk(nodes, path, MatchTypes(m), recs, n);
      LedIsPrefix(m, recs[n].tuple);
      if LeadKeys(m) <= path[n] {
        assert path[p] < path[n] && path[n][|path[p]|] == key;
        var c := ChildOnPath(nodes, path, MatchTypes(m), hash, None, p, n);
        assert false;
      }
    }
  }

  /** A trie with leaves has children below every inner node. */
  lemma HasChildren(nodes: Heap, path: Paths, types: seq<Type>, hash: Key -> nat, leaves: seq<NodeId>, recs: Recs,
      p: NodeId)
    requires Shape(nodes, path, types, hash, None) && LeavesOk(nodes, path, types, leaves, recs) && leaves != []
    requires p in nodes && !nodes[p].kids.Leaf?
    ensures Siblings(nodes[p].kids) != []
  {
    assert WordOk(nodes, path, types, None, p) && UpOk(nodes, path, ROOT);
    if p == ROOT {
      var n := leaves[0];
      assert n in recs;
      assert LeafOk(nodes, path, types, recs, n);
      assert SamePath(path, n, ROOT) ==> n == ROOT;
      var c := ChildOnPath(nodes, path, types, hash, None, p, n);
    }
  }

  /** Only the root can be without children, and then the trie is empty. */
  lemma NothingHere(nodes: Heap, path: Paths, types: seq<Type>, hash: Key -> nat, leaves: seq<NodeId>, recs: Recs,
      p: NodeId)
    requires Shape(nodes, path, types, hash, None) && LeavesOk(nodes, path, types, leaves, recs)
    requires p in nodes && NoChildren(nodes[p].kids)
    ensures p == ROOT && leaves == []
  {
    assert WordOk(nodes, path, types, None, p) && KidsOk(nodes, hash, p);
    if leaves != [] {
      HasChildren(nodes, path, types, hash, leaves, recs, p);
    }
  }

  lemma SomethingBelow(nodes: Heap, path: Paths, types: seq<Type>, hash: Key -> nat, leaves: seq<NodeId>, recs: Recs,
      p: NodeId)
    requires Shape(nodes, path, types, hash, None) && LeavesOk(nodes, path, types, leaves, recs)
    requires p in nodes && !NoChildren(nodes[p].kids)
    ensures leaves != []
  {
    assert KidsOk(nodes, hash, p);
    if nodes[p].kids.Leaf? || Siblings(nodes[p].kids) != [] {
      var l := LeafBelow(nodes, path, types, hash, p);
      assert l in leaves;
    }
  }

  lemma NothingLed(leaves: seq<NodeId>, recs: Recs, m: seq<MatchField>)
    requires forall n :: n in leaves ==> n in recs
    requires forall n :: n in recs ==> !Led(m, recs[n].tuple)
    ensures DropLed(ContentsOf(leaves, recs), m) == ContentsOf(leaves, recs)
  {
    KeepIsDropLed(leaves, recs, {}, m);
    NothingGone(leaves, recs);
  }

  lemma LeadStep(here: seq<Key>, stack: seq<MatchField>, all: seq<Key>)
    requires stack != [] && stack[0].Exact? && here + LeadKeys(stack) == all
    ensures here + [AtomKey(stack[0].atom)] + LeadKeys(stack[1..]) == all
    ensures here + ([AtomKey(stack[0].atom)] + LeadKeys(stack[1..])) == all
    ensures Eat(MatchTypes(stack), AtomKey(stack[0].atom)) == Some(MatchTypes(stack[1..]))
  {
    assert MatchTypes(stack)[1..] == MatchTypes(stack[1..]);
  }

  lemma BranchStands(nodes: Heap, path: Paths, types: seq<Type>, hash: Key -> nat, leaves: seq<NodeId>, recs: Recs,
      n: NodeId)
    requires Shape(nodes, path, types, hash, None) && LeavesOk(nodes, path, types, leaves, recs) && n in nodes
    ensures n in path
    ensures Standing(nodes, nodes, leaves, recs, Below(path, n))
  {
    forall m | m in recs ensures m in nodes && nodes[m].kids.Leaf? {
      assert LeafOk(nodes, path, types, recs, m);
    }
  }

  lemma OutsideIs(nodes: Heap, path: Paths, types: seq<Type>, hash: Key -> nat, n: NodeId)
    requires Shape(nodes, path, types, hash, None) && n in nodes
    ensures path.Keys - (Below(path, n) - {n}) == Outside(path, n)
    ensures Cut(nodes, path, n, Emptied(nodes, Below(path, n), n), path - (Below(path, n) - {n}))
  {
    forall m | m in path ensures m in Below(path, n) - {n} <==> path[n] < path[m] {
      assert SamePath(path, n, m) ==> n == m;
    }
  }

  /** The leaf list after the removal of a branch. */
  lemma CutLeaves(nodes: Heap, path: Paths, types: seq<Type>, hash: Key -> nat, leaves: seq<NodeId>, recs: Recs,
      n: NodeId, nodes': Heap, path': Paths, leaves': seq<NodeId>, recs': Recs)
    requires Shape(nodes, path, types, hash, None)
    requires LeavesOk(nodes, path, types, leaves, recs) && Cut(nodes, path, n, nodes', path')
    requires LeavesGone(leaves, recs, leaves', recs', Below(path, n))
    ensures LeavesOk(nodes', path', types, leaves', recs')
  {
    KeepMember(leaves, Below(path, n));
    KeepNoDup(leaves, Below(path, n));
    forall m | m in recs' ensures LeafOk(nodes', path', types, recs', m) {
      assert LeafOk(nodes, path, types, recs, m);
    }
    forall m | m in nodes' && nodes'[m].kids.Leaf? ensures m in recs' {
      assert SamePath(path, n, m) ==> n == m;
    }
  }

  /** The trie after the removal of a branch, before the childless node itself is removed. */
  lemma BranchCut(nodes: Heap, path: Paths, types: seq<Type>, hash: Key -> nat, leaves: seq<NodeId>, recs: Recs,
      n: NodeId, leaves': seq<NodeId>, recs': Recs)
    requires Shape(nodes, path, types, hash, None) && n in nodes && LeavesOk(nodes, path, types, leaves, recs)
    requires LeavesGone(leaves, recs, leaves', recs', Below(path, n))
    ensures var nodes', path' := Emptied(nodes, Below(path, n), n), path - (Below(path, n) - {n});
            && Shape(nodes', path', types, hash, Some(n)) && LeavesOk(nodes', path', types, leaves', recs')
            && nodes'.Keys <= nodes.Keys && n in nodes' && nodes'[n].kids == Chain([])
  {
    var nodes', path' := Emptied(nodes, Below(path, n), n), path - (Below(path, n) - {n});
    OutsideIs(nodes, path, types, hash, n);
    CutBranchShape(nodes, path, types, hash, n, nodes', path');
    CutLeaves(nodes, path, types, hash, leaves, recs, n, nodes', path', leaves', recs');
  }

  /** What is owed on the leaves that stay: less by what was owed on the others. */
  lemma {:induction false} OwingKeep(leaves: seq<NodeId>, owed: map<NodeId, nat>, gone: set<NodeId>)
    requires forall n :: n in leaves ==> n in owed
    ensures Owing(Keep(leaves, gone), owed - gone) <= Owing(leaves, owed)
    ensures Owing(Keep(leaves, gone), owed - gone) == Owing(leaves, owed) <==>
            forall n :: n in leaves && n in gone ==> owed[n] == 0
  {
    if leaves != [] {
      assert leaves[0] in leaves;
      OwingKeep(leaves[1..], owed, gone);
      var rest := Keep(leaves[1..], gone);
      assert forall n :: n in leaves <==> n == leaves[0] || n in leaves[1..];
      if leaves[0] in gone {
        assert [] + rest == rest;
      } else {
        assert Keep(leaves, gone)[1..] == rest;
      }
    }
  }

  /** The references stay accounted for when a branch goes if and only if nothing is owed on its leaves. */
  lemma BranchAccounts(leaves: seq<NodeId>, recs: Recs, references: int, owed: map<NodeId, nat>,
      leaves': seq<NodeId>, recs': Recs, gone: set<NodeId>, count: int)
    requires Accounted(leaves, recs, references, owed) && Gone(leaves, recs, leaves', recs', gone, count)
    ensures Accounted(leaves', recs', references - count, owed - gone) <==>
            forall n :: n in leaves && n in gone ==> owed[n] == 0
  {
    OwingKeep(leaves, owed, gone);
    forall n | n in recs' ensures Alive(recs', owed - gone, n) {
      assert Alive(recs, owed, n);
    }
  }

  /** With no leaf nothing is left but the root; with leaves there are references. */
  lemma BasicInvariants(nodes: Heap, path: Paths, types: seq<Type>, hash: Key -> nat, leaves: seq<NodeId>, recs: Recs,
      references: int, owed: map<NodeId, nat>)
    requires Shape(nodes, path, types, hash, None) && LeavesOk(nodes, path, types, leaves, recs)
    requires Accounted(leaves, recs, references, owed)
    ensures references >= 0
    ensures references == 0 <==> nodes[ROOT].kids == Chain([])
    ensures nodes[ROOT].kids == Chain([]) <==> leaves == []
    ensures leaves == [] ==> nodes.Keys == {ROOT}
  {
    PositiveTotal(leaves, recs, owed);
    if leaves == [] {
      forall n | n in nodes ensures n == ROOT && nodes[ROOT].kids == Chain([]) {
        NoLeafNoNode(nodes, path, types, hash, leaves, recs, n);
      }
    } else if !nodes[ROOT].kids.Leaf? {
      HasChildren(nodes, path, types, hash, leaves, recs, ROOT);
    }
  }

  lemma NoLeafNoNode(nodes: Heap, path: Paths, types: seq<Type>, hash: Key -> nat, leaves: seq<NodeId>, recs: Recs,
      n: NodeId)
    requires Shape(nodes, path, types, hash, None) && LeavesOk(nodes, path, types, leaves, recs)
    requires leaves == [] && n in nodes
    ensures n == ROOT && nodes[n].kids == Chain([])
  {
    if n != ROOT || nodes[n].kids.Leaf? || Siblings(nodes[n].kids) != [] {
      var l := LeafBelow(nodes, path, types, hash, n);
      assert false;
    }
    assert KidsOk(nodes, hash, n);
  }

  lemma {:induction false} PositiveTotal(leaves: seq<NodeId>, recs: Recs, owed: map<NodeId, nat>)
    requires forall n :: n in leaves ==> n in recs && n in owed && Alive(recs, owed, n)
    ensures leaves != [] ==> Total(ContentsOf(leaves, recs)) + Owing(leaves, owed) > 0
    ensures leaves == [] ==> Total(ContentsOf(leaves, recs)) + Owing(leaves, owed) == 0
  {
    if leaves != [] {
      assert leaves[0] in leaves;
      ContentsCons(leaves, recs);
      PositiveTotal(leaves[1..], recs, owed);
    }
  }

  // ---------------------------------------------------------------- what the removal of a path leaves

  ghost predicate LeadsToLeaf(path: Paths, leaves: seq<NodeId>, n: NodeId)
    requires n in path
  {
    exists l :: l in leaves && l in path && path[n] <= path[l]
  }

  /** Exactly the nodes that lead to a leaf are left, and the root. */
  ghost predicate Trimmed(nodes: Heap, path: Paths, leaves: seq<NodeId>, nodes': Heap, path': Paths) {
    && path.Keys == nodes.Keys && path'.Keys == nodes'.Keys && nodes'.Keys <= nodes.Keys
    && (forall n :: n in nodes' ==> path'[n] == path[n])
    && forall n :: n in nodes ==> (n in nodes' <==> n == ROOT || LeadsToLeaf(path, leaves, n))
  }

  /** Nothing is left to remove. */
  lemma AllLead(nodes: Heap, path: Paths, types: seq<Type>, hash: Key -> nat, leaves: seq<NodeId>, recs: Recs)
    requires Shape(nodes, path, types, hash, None) && LeavesOk(nodes, path, types, leaves, recs)
    ensures Trimmed(nodes, path, leaves, nodes, path)
  {
    forall n | n in nodes && n != ROOT ensures LeadsToLeaf(path, leaves, n) {
      var l := LeafBelow(nodes, path, types, hash, n);
      assert l in leaves;
    }
  }

  /** A childless node leads to no leaf. */
  lemma ChildlessLeads(nodes: Heap, path: Paths, types: seq<Type>, hash: Key -> nat, leaves: seq<NodeId>, recs: Recs,
      n: NodeId)
    requires Shape(nodes, path, types, hash, Some(n)) && LeavesOk(nodes, path, types, leaves, recs)
    requires n in nodes && !nodes[n].kids.Leaf? && Siblings(nodes[n].kids) == []
    ensures n in path && n !in leaves && !LeadsToLeaf(path, leaves, n)
    ensures path.Keys == nodes.Keys
  {
    assert n in leaves ==> LeafOk(nodes, path, types, recs, n);
    forall l | l in leaves && l in path ensures !(path[n] <= path[l]) {
      assert LeafOk(nodes, path, types, recs, l);
      if path[n] < path[l] {
        var c := ChildOnPath(nodes, path, types, hash, Some(n), n, l);
        assert false;
      }
      assert SamePath(path, n, l) ==> n == l;
    }
  }

  lemma TrimmedOne(nodes: Heap, path: Paths, leaves: seq<NodeId>, n: NodeId, nodes1: Heap, path1: Paths, nodes': Heap,
      path': Paths)
    requires n in nodes && n in path && n != ROOT && n !in leaves && !LeadsToLeaf(path, leaves, n)
             && path.Keys == nodes.Keys
    requires nodes1.Keys == nodes.Keys - {n} && path1 == path - {n} && Trimmed(nodes1, path1, leaves, nodes', path')
    ensures Trimmed(nodes, path, leaves, nodes', path')
  {
    forall m | m in nodes && m != n ensures LeadsToLeaf(path1, leaves, m) <==> LeadsToLeaf(path, leaves, m) {
      if LeadsToLeaf(path, leaves, m) {
        var l :| l in leaves && l in path && path[m] <= path[l];
        assert l in path1;
      }
    }
  }
}
