/**
  The backtracking search of `tuple_trie::match_predicate` (predicates/db/trie.cpp): what its
  continuation frames stand for, and why the search finds every matching leaf once.
*/
module TrieMatch {
  import opened Common
  import opened Tuples
  import opened TrieShape
  import opened TrieLeaves
  import opened TrieCut

  /** `has_any_exact`. */
  predicate HasAnyExact(m: seq<MatchField>) {
    exists i :: 0 <= i < |m| && m[i].Exact?
  }

  /** `continuation_frame`: the node to go on with, and the match stack at that point. */
  datatype Frame = Frame(next: NodeId, stack: seq<MatchField>)

  /** What a frame stands for: some children of `p`, the last ones, are still to be searched. */
  datatype Job = Job(p: NodeId, ids: seq<NodeId>, stack: seq<MatchField>)

  // ---------------------------------------------------------------- the match stack along a path

  /** The match stack after the keys `ks`; `None` when one of them is not admitted. */
  ghost function Follow(m: seq<MatchField>, ks: seq<Key>): Option<seq<MatchField>>
    decreases |ks|
  {
    if ks == [] then Some(m)
    else if m == [] || !Admits(m[0], ks[0]) then None
    else Follow(Narrow(m, ks[0]), ks[1..])
  }

  lemma {:induction false} FollowAppend(m: seq<MatchField>, a: seq<Key>, b: seq<Key>)
    ensures Follow(m, a + b) == if Follow(m, a).Some? then Follow(Follow(m, a).value, b) else None
    decreases |a|
  {
    if a == [] {
      assert a + b == b;
    } else {
      assert (a + b)[0] == a[0] && (a + b)[1..] == a[1..] + b;
      if m != [] && Admits(m[0], a[0]) {
        FollowAppend(Narrow(m, a[0]), a[1..], b);
      }
    }
  }

  lemma FollowSnoc(m: seq<MatchField>, a: seq<Key>, k: Key, stack: seq<MatchField>)
    requires Follow(m, a) == Some(stack)
    ensures Follow(m, a + [k]) == if stack != [] && Admits(stack[0], k) then Some(Narrow(stack, k)) else None
  {
    FollowAppend(m, a, [k]);
    assert [k][1..] == [];
  }

  lemma {:induction false} AcceptsIsFollow(m: seq<MatchField>, ks: seq<Key>)
    ensures Accepts(m, ks) <==> Follow(m, ks) == Some([])
    decreases |ks|
  {
    if ks != [] && m != [] && Admits(m[0], ks[0]) {
      AcceptsIsFollow(Narrow(m, ks[0]), ks[1..]);
    }
  }

  /** The match stack keeps step with the types still to be read. */
  lemma {:induction false} FollowTypes(m: seq<MatchField>, ks: seq<Key>)
    requires Follow(m, ks).Some? && Residual(MatchTypes(m), ks).Some?
    ensures MatchTypes(Follow(m, ks).value) == Residual(MatchTypes(m), ks).value
    decreases |ks|
  {
    if ks != [] {
      NarrowTypes(m, ks[0]);
      FollowTypes(Narrow(m, ks[0]), ks[1..]);
    }
  }

  // ---------------------------------------------------------------- the work that is left

  /** The nodes still to be searched. */
  ghost function Cover(path: Paths, jobs: seq<Job>): set<NodeId> {
    if jobs == [] then {} else BelowAny(path, jobs[0].ids) + Cover(path, jobs[1..])
  }

  ghost predicate JobOk(nodes: Heap, path: Paths, m: seq<MatchField>, j: Job) {
    && j.p in nodes && j.p in path && j.ids != []
    && |j.ids| <= |Siblings(nodes[j.p].kids)|
    && j.ids == Siblings(nodes[j.p].kids)[|Siblings(nodes[j.p].kids)| - |j.ids|..]
    && Follow(m, path[j.p]) == Some(j.stack) && j.stack != []
  }

  /** No two jobs share work, and all but the first are alternatives at a field that is not exact. */
  ghost predicate Pending(nodes: Heap, path: Paths, m: seq<MatchField>, jobs: seq<Job>) {
    jobs != [] ==>
      && JobOk(nodes, path, m, jobs[0]) && jobs[0].stack[0].Any?
      && BelowAny(path, jobs[0].ids) !! Cover(path, jobs[1..])
      && Pending(nodes, path, m, jobs[1..])
  }

  /** The continuation stack holds one frame for each job. */
  ghost predicate Frames(cont: seq<Frame>, jobs: seq<Job>) {
    && |cont| == |jobs|
    && forall i :: 0 <= i < |cont| ==> jobs[i].ids != [] && cont[i] == Frame(jobs[i].ids[0], jobs[i].stack)
  }

  /** The search so far: `vec` has been found, what else there is lies in `left`. */
  ghost predicate Searching(path: Paths, recs: Recs, m: seq<MatchField>, vec: seq<NodeId>, left: set<NodeId>) {
    && NoDup(vec)
    && (forall l :: l in vec ==> l in recs && l in path && l !in left && Accepts(m, path[l]))
    && (forall l :: l in recs && l in path && Accepts(m, path[l]) ==> l in vec || l in left)
  }

  /** No leaf is missed when only nodes are dropped that are not matching leaves. */
  lemma Narrowed(path: Paths, recs: Recs, m: seq<MatchField>, vec: seq<NodeId>, left: set<NodeId>, left': set<NodeId>)
    requires Searching(path, recs, m, vec, left) && left' <= left
    requires forall l :: l in left - left' && l in recs && l in path ==> !Accepts(m, path[l])
    ensures Searching(path, recs, m, vec, left')
  {
  }

  lemma Found(path: Paths, recs: Recs, m: seq<MatchField>, vec: seq<NodeId>, left: set<NodeId>, l: NodeId)
    requires Searching(path, recs, m, vec, left) && l in left && l in recs && l in path && Accepts(m, path[l])
    ensures Searching(path, recs, m, vec + [l], left - {l})
  {
    NoDupOne(l);
    NoDupAppend(vec, [l]);
  }

  // ---------------------------------------------------------------- steps of the search

  /** The last siblings `ids`: the first of them and the others. */
  lemma SuffixSplit(sibs: seq<NodeId>, ids: seq<NodeId>)
    requires NoDup(sibs) && ids != [] && |ids| <= |sibs| && ids == sibs[|sibs| - |ids|..]
    ensures ids == [ids[0]] + ids[1..] && ids[0] in sibs
    ensures forall x :: x in ids[1..] ==> x in sibs && x != ids[0]
    ensures ids[1..] == sibs[|sibs| - |ids[1..]|..]
  {
    var d := |sibs| - |ids|;
    forall x | x in ids[1..] ensures x in sibs && x != ids[0] {
      var k: nat :| k < |ids[1..]| && ids[1..][k] == x;
      assert sibs[d + 1 + k] == x && sibs[d] == ids[0];
      assert Differ(sibs, d, d + 1 + k);
    }
  }

  /** A job is the first of its children and the job of the others. */
  lemma SplitJob(nodes: Heap, path: Paths, types: seq<Type>, hash: Key -> nat, m: seq<MatchField>, j: Job)
    requires Shape(nodes, path, types, hash, None) && JobOk(nodes, path, m, j)
    ensures var c, rest := j.ids[0], j.ids[1..];
            && c in nodes && c in Siblings(nodes[j.p].kids)
            && BelowAny(path, j.ids) == Below(path, c) + BelowAny(path, rest)
            && Below(path, c) !! BelowAny(path, rest)
            && (rest != [] ==> JobOk(nodes, path, m, Job(j.p, rest, j.stack)))
  {
    var c, rest := j.ids[0], j.ids[1..];
    assert KidsOk(nodes, hash, j.p);
    SuffixSplit(Siblings(nodes[j.p].kids), j.ids);
    ChildPath(nodes, path, types, hash, None, j.p, c);
    BelowOne(path, c);
    BelowAnyAppend(path, [c], rest);
    GroupsApart(nodes, path, types, hash, j.p, [c], rest);
  }

  /** One step down from `p` to its child `c`, whose key the stack admits. */
  lemma StepDown(nodes: Heap, path: Paths, hash: Key -> nat, leaves: seq<NodeId>, recs: Recs, m: seq<MatchField>,
      p: NodeId, stack: seq<MatchField>, c: NodeId)
    requires Shape(nodes, path, MatchTypes(m), hash, None) && LeavesOk(nodes, path, MatchTypes(m), leaves, recs)
    requires p in nodes && Follow(m, path[p]) == Some(stack) && stack != []
    requires c in Siblings(nodes[p].kids) && c in nodes && Admits(stack[0], nodes[c].data)
    ensures nodes[c].kids.Leaf? ==> c in recs && Accepts(m, path[c]) && Below(path, c) == {c}
    ensures !nodes[c].kids.Leaf? ==>
              c !in recs && JobOk(nodes, path, m, Job(c, Siblings(nodes[c].kids), Narrow(stack, nodes[c].data)))
    ensures BelowAny(path, Siblings(nodes[c].kids)) == Below(path, c) - {c} && c in Below(path, c)
  {
    var types := MatchTypes(m);
    ChildPath(nodes, path, types, hash, None, p, c);
    FollowSnoc(m, path[p], nodes[c].data, stack);
    FollowTypes(m, path[c]);
    assert WordOk(nodes, path, types, None, c);
    BelowChildren(nodes, path, types, hash, c);
    if nodes[c].kids.Leaf? {
      NoneBelow(path, nodes);
      assert Below(path, c) == Below(path, c) - {c} + {c};
      assert MatchTypes(Narrow(stack, nodes[c].data)) == [];
      AcceptsIsFollow(m, path[c]);
    } else {
      assert c in recs ==> LeafOk(nodes, path, types, recs, c);
      var sibs := Siblings(nodes[c].kids);
      ChildPath(nodes, path, types, hash, None, c, sibs[0]);
      assert Narrow(stack, nodes[c].data) != [] by {
        assert Residual(types, path[c]) != Some([]);
      }
    }
  }

  /** Below a child whose key is not admitted nothing is admitted, and no leaf matches. */
  lemma Rejected(nodes: Heap, path: Paths, hash: Key -> nat, m: seq<MatchField>,
      p: NodeId, stack: seq<MatchField>, c: NodeId, l: NodeId)
    requires Shape(nodes, path, MatchTypes(m), hash, None) && p in nodes && Follow(m, path[p]) == Some(stack)
             && stack != []
    requires c in Siblings(nodes[p].kids) && c in nodes && !Admits(stack[0], nodes[c].data)
    requires l in path && path[c] <= path[l]
    ensures Follow(m, path[l]) == None && !Accepts(m, path[l])
  {
    ChildPath(nodes, path, MatchTypes(m), hash, None, p, c);
    FollowSnoc(m, path[p], nodes[c].data, stack);
    var more := path[l][|path[c]|..];
    assert path[l] == path[c] + more;
    FollowAppend(m, path[c], more);
    AcceptsIsFollow(m, path[l]);
  }

  /** At the beginning of a round: the children `j.ids` of `j.p` are to be searched, then `jobs`. */
  ghost predicate AtNode(nodes: Heap, path: Paths, recs: Recs, m: seq<MatchField>, vec: seq<NodeId>, j: Job,
      jobs: seq<Job>)
  {
    && JobOk(nodes, path, m, j) && (j.stack[0].Exact? ==> j.ids == Siblings(nodes[j.p].kids))
    && Pending(nodes, path, m, jobs) && BelowAny(path, j.ids) !! Cover(path, jobs)
    && Searching(path, recs, m, vec, BelowAny(path, j.ids) + Cover(path, jobs))
  }

  /** Before the next frame is taken. */
  ghost predicate AtChoice(nodes: Heap, path: Paths, recs: Recs, m: seq<MatchField>, vec: seq<NodeId>, jobs: seq<Job>) {
    Pending(nodes, path, m, jobs) && Searching(path, recs, m, vec, Cover(path, jobs))
  }

  /** A child `c` has been chosen; its branch and `jobs` are what is left. */
  ghost predicate Chosen(nodes: Heap, path: Paths, recs: Recs, m: seq<MatchField>, vec: seq<NodeId>,
      p: NodeId, stack: seq<MatchField>, c: NodeId, jobs: seq<Job>)
  {
    && p in nodes && p in path && Follow(m, path[p]) == Some(stack) && stack != []
    && c in Siblings(nodes[p].kids) && c in nodes && c in path && Admits(stack[0], nodes[c].data)
    && Pending(nodes, path, m, jobs) && Below(path, c) !! Cover(path, jobs)
    && Searching(path, recs, m, vec, Below(path, c) + Cover(path, jobs))
  }

  lemma MatchStarts(nodes: Heap, path: Paths, hash: Key -> nat, leaves: seq<NodeId>, recs: Recs, m: seq<MatchField>)
    requires Shape(nodes, path, MatchTypes(m), hash, None) && LeavesOk(nodes, path, MatchTypes(m), leaves, recs)
    requires m != [] && leaves != []
    ensures !nodes[ROOT].kids.Leaf? && AtNode(nodes, path, recs, m, [], Job(ROOT, Siblings(nodes[ROOT].kids), m), [])
  {
    var types := MatchTypes(m);
    assert UpOk(nodes, path, ROOT) && WordOk(nodes, path, types, None, ROOT);
    HasChildren(nodes, path, types, hash, leaves, recs, ROOT);
    BelowChildren(nodes, path, types, hash, ROOT);
    forall l | l in recs ensures l in Below(path, ROOT) - {ROOT} {
      assert LeafOk(nodes, path, types, recs, l);
    }
  }

  /** A field that is not exact takes the first child and leaves the others to a frame. */
  lemma ChooseAny(nodes: Heap, path: Paths, types: seq<Type>, hash: Key -> nat, recs: Recs, m: seq<MatchField>,
      vec: seq<NodeId>, j: Job, jobs: seq<Job>)
    returns (jobs': seq<Job>)
    requires Shape(nodes, path, types, hash, None) && AtNode(nodes, path, recs, m, vec, j, jobs) && j.stack[0].Any?
    ensures jobs' == if |j.ids| == 1 then jobs else [Job(j.p, j.ids[1..], j.stack)] + jobs
    ensures Chosen(nodes, path, recs, m, vec, j.p, j.stack, j.ids[0], jobs')
    ensures Below(path, j.ids[0]) + Cover(path, jobs') == BelowAny(path, j.ids) + Cover(path, jobs)
  {
    SplitJob(nodes, path, types, hash, m, j);
    var rest := j.ids[1..];
    if |j.ids| == 1 {
      NoneBelow(path, nodes);
      jobs' := jobs;
    } else {
      jobs' := [Job(j.p, rest, j.stack)] + jobs;
      assert jobs'[1..] == jobs;
    }
  }

  /** An exact field takes the child with its key: all others are rejected. */
  lemma ChooseExact(nodes: Heap, path: Paths, hash: Key -> nat, recs: Recs, m: seq<MatchField>, vec: seq<NodeId>,
      j: Job, jobs: seq<Job>, c: NodeId)
    requires Shape(nodes, path, MatchTypes(m), hash, None) && AtNode(nodes, path, recs, m, vec, j, jobs)
             && j.stack[0].Exact?
    requires c in j.ids && c in nodes && nodes[c].data == AtomKey(j.stack[0].atom)
    ensures Chosen(nodes, path, recs, m, vec, j.p, j.stack, c, jobs)
    ensures Below(path, c) + Cover(path, jobs) <= BelowAny(path, j.ids) + Cover(path, jobs)
  {
    ChildPath(nodes, path, MatchTypes(m), hash, None, j.p, c);
    forall l | l in Below(path, c) ensures l in BelowAny(path, j.ids) {
      assert UnderOne(path, j.ids, l);
    }
    forall l | l in BelowAny(path, j.ids) - Below(path, c) ensures !Accepts(m, path[l]) {
      var d :| d in j.ids && d in path && path[d] <= path[l];
      ChildPath(nodes, path, MatchTypes(m), hash, None, j.p, d);
      assert SamePath(path, c, d) ==> c == d;
      Rejected(nodes, path, hash, m, j.p, j.stack, d, l);
    }
    Narrowed(path, recs, m, vec, BelowAny(path, j.ids) + Cover(path, jobs), Below(path, c) + Cover(path, jobs));
  }

  /** When no child has the exact key, the whole branch is rejected. */
  lemma ChooseNone(nodes: Heap, path: Paths, hash: Key -> nat, recs: Recs, m: seq<MatchField>, vec: seq<NodeId>, j: Job,
      jobs: seq<Job>)
    requires Shape(nodes, path, MatchTypes(m), hash, None) && AtNode(nodes, path, recs, m, vec, j, jobs)
             && j.stack[0].Exact?
    requires forall s :: s in j.ids && s in nodes ==> nodes[s].data != AtomKey(j.stack[0].atom)
    ensures AtChoice(nodes, path, recs, m, vec, jobs)
    ensures Cover(path, jobs) < BelowAny(path, j.ids) + Cover(path, jobs)
  {
    SplitJob(nodes, path, MatchTypes(m), hash, m, j);
    assert j.ids[0] in Below(path, j.ids[0]);
    forall l | l in BelowAny(path, j.ids) ensures !Accepts(m, path[l]) {
      var d :| d in j.ids && d in path && path[d] <= path[l];
      Rejected(nodes, path, hash, m, j.p, j.stack, d, l);
    }
    Narrowed(path, recs, m, vec, BelowAny(path, j.ids) + Cover(path, jobs), Cover(path, jobs));
  }

  /** `match_succeeded`: a leaf is recorded, an inner node is searched next; either way less is left. */
  lemma Succeeded(nodes: Heap, path: Paths, hash: Key -> nat, leaves: seq<NodeId>, recs: Recs, m: seq<MatchField>,
      vec: seq<NodeId>, p: NodeId, stack: seq<MatchField>, c: NodeId, jobs: seq<Job>)
    requires Shape(nodes, path, MatchTypes(m), hash, None) && LeavesOk(nodes, path, MatchTypes(m), leaves, recs)
    requires Chosen(nodes, path, recs, m, vec, p, stack, c, jobs)
    ensures nodes[c].kids.Leaf? ==>
              AtChoice(nodes, path, recs, m, vec + [c], jobs) && Cover(path, jobs) < Below(path, c) + Cover(path, jobs)
    ensures !nodes[c].kids.Leaf? ==>
              && AtNode(nodes, path, recs, m, vec, Job(c, Siblings(nodes[c].kids), Narrow(stack, nodes[c].data)), jobs)
              && BelowAny(path, Siblings(nodes[c].kids)) + Cover(path, jobs) < Below(path, c) + Cover(path, jobs)
  {
    StepDown(nodes, path, hash, leaves, recs, m, p, stack, c);
    var left := Below(path, c) + Cover(path, jobs);
    if nodes[c].kids.Leaf? {
      Found(path, recs, m, vec, left, c);
      assert left - {c} == Cover(path, jobs);
    } else {
      Narrowed(path, recs, m, vec, left, left - {c});
      assert left - {c} == BelowAny(path, Siblings(nodes[c].kids)) + Cover(path, jobs);
    }
  }

  /** `try_again`: the next frame. */
  lemma NextJob(nodes: Heap, path: Paths, types: seq<Type>, hash: Key -> nat, recs: Recs, m: seq<MatchField>,
      vec: seq<NodeId>, jobs: seq<Job>, cont: seq<Frame>)
    requires Shape(nodes, path, types, hash, None) && AtChoice(nodes, path, recs, m, vec, jobs) && jobs != []
             && Frames(cont, jobs)
    ensures AtNode(nodes, path, recs, m, vec, jobs[0], jobs[1..]) && Frames(cont[1..], jobs[1..])
    ensures BelowAny(path, jobs[0].ids) + Cover(path, jobs[1..]) == Cover(path, jobs)
    ensures cont[0].next == jobs[0].ids[0] && cont[0].stack == jobs[0].stack
    ensures cont[0].next in nodes && nodes[cont[0].next].parent == jobs[0].p
    ensures jobs[0].ids[0] in Siblings(nodes[jobs[0].p].kids)
  {
    SplitJob(nodes, path, types, hash, m, jobs[0]);
    ChildPath(nodes, path, types, hash, None, jobs[0].p, jobs[0].ids[0]);
  }

  /** When nothing is left the matching leaves have been found. */
  lemma MatchEnds(nodes: Heap, path: Paths, leaves: seq<NodeId>, recs: Recs, m: seq<MatchField>, vec: seq<NodeId>)
    requires LeavesOk(nodes, path, MatchTypes(m), leaves, recs) && Searching(path, recs, m, vec, {})
    ensures NoDup(vec) && forall l :: l in vec <==> l in recs && |recs[l].tuple| == |m| && Selected(m, recs[l].tuple)
  {
    forall l | l in recs
      ensures l in path && HasTypes(recs[l].tuple, MatchTypes(m)) && (Accepts(m, path[l]) <==>
              Selected(m, recs[l].tuple))
    {
      assert LeafOk(nodes, path, MatchTypes(m), recs, l);
      AcceptsIsSelected(m, recs[l].tuple);
    }
  }

  /** `from` is the node of the frame just taken, or nothing when going down. */
  ghost predicate Current(nodes: Heap, from: Option<NodeId>, j: Job) {
    && j.p in nodes && j.ids != [] && j.stack != []
    && if from.Some? then j.ids[0] == from.value && j.stack[0].Any? else j.ids == Siblings(nodes[j.p].kids)
  }

  /** Where the last siblings `ids` begin. */
  lemma VisitedAt(sibs: seq<NodeId>, ids: seq<NodeId>, i: nat)
    requires NoDup(sibs) && ids != [] && |ids| <= |sibs| && ids == sibs[|sibs| - |ids|..]
    requires i < |sibs| && sibs[i] == ids[0]
    ensures i + |ids| == |sibs| && (|ids| > 1 ==> ids[1] == sibs[i + 1])
  {
    SamePosition(sibs, i, |sibs| - |ids|);
  }

  /** The job of the node visited and its alternative. */
  lemma VisitedJob(nodes: Heap, path: Paths, hash: Key -> nat, m: seq<MatchField>, j: Job, from: Option<NodeId>,
      node: NodeId, alt: Option<NodeId>, i: nat)
    requires JobOk(nodes, path, m, j) && Current(nodes, from, j) && KidsOk(nodes, hash, j.p)
    requires i < |Siblings(nodes[j.p].kids)| && Siblings(nodes[j.p].kids)[i] == node
    requires if from.Some? then node == from.value else i == 0
    requires alt == if i + 1 < |Siblings(nodes[j.p].kids)| then Some(Siblings(nodes[j.p].kids)[i + 1]) else None
    ensures node == j.ids[0] && alt == if |j.ids| == 1 then None else Some(j.ids[1])
  {
    VisitedAt(Siblings(nodes[j.p].kids), j.ids, i);
  }

  /** What is new on the continuation stack. */
  ghost predicate Pushed(alt: Option<NodeId>, stack: seq<MatchField>, jobs: seq<Job>, jobs': seq<Job>) {
    if alt.None? then jobs' == jobs
    else jobs' != [] && jobs'[1..] == jobs && jobs'[0].ids != [] && jobs'[0].ids[0] == alt.value && jobs'[0].stack == stack
  }

  lemma FramesPushed(cont: seq<Frame>, jobs: seq<Job>, alt: Option<NodeId>, stack: seq<MatchField>, jobs': seq<Job>)
    requires Frames(cont, jobs) && Pushed(alt, stack, jobs, jobs')
    ensures Frames(if alt.Some? then [Frame(alt.value, stack)] + cont else cont, jobs')
  {
    if alt.Some? {
      assert jobs' == [jobs'[0]] + jobs;
    }
  }

  /** A match without exact fields selects all. */
  lemma NothingExact(nodes: Heap, path: Paths, leaves: seq<NodeId>, recs: Recs, m: seq<MatchField>)
    requires LeavesOk(nodes, path, MatchTypes(m), leaves, recs) && !HasAnyExact(m)
    ensures NoDup(leaves) && forall l :: l in leaves <==>
            l in recs && |recs[l].tuple| == |m| && Selected(m, recs[l].tuple)
  {
    forall l | l in recs ensures |recs[l].tuple| == |m| && Selected(m, recs[l].tuple) {
      assert LeafOk(nodes, path, MatchTypes(m), recs, l);
    }
  }
}
