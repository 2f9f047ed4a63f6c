/**
  When a search of `tuple_trie::match_predicate` (predicates/db/trie.cpp) reads the cell behind a hash
  table: the scans for the next non-empty bucket read before they test for the end.
*/
module TrieScan {
  import opened Common
  import opened Tuples
  import opened TrieShape
  import opened TrieLeaves
  import opened TrieCut
  import opened TrieMatch

  /** The keys of `p` are admitted by the match, which goes on with a field that is not exact. */
  ghost predicate Scanned(path: Paths, m: seq<MatchField>, p: NodeId)
    requires p in path
  {
    Follow(m, path[p]).Some? && Follow(m, path[p]).value != [] && Follow(m, path[p]).value[0].Any?
  }

  /** The hash table of `p` is gone through by the search. */
  ghost predicate TableScanned(nodes: Heap, path: Paths, m: seq<MatchField>, p: NodeId) {
    p in nodes && p in path && nodes[p].kids.Table? && Scanned(path, m, p)
  }

  /** Some hash table is gone through by the search. */
  ghost predicate ScansTable(nodes: Heap, path: Paths, m: seq<MatchField>) {
    exists p :: TableScanned(nodes, path, m, p)
  }

  /** The nodes that wait for their next child. */
  ghost function Parents(jobs: seq<Job>): set<NodeId> {
    set j | j in jobs :: j.p
  }

  /** The search has read behind a table only if it goes through one, and a table that it goes through
      has been read to its end, or lies in `left`, or is one of the nodes `open` being searched. */
  ghost predicate Reading(nodes: Heap, path: Paths, m: seq<MatchField>, overran: bool, left: set<NodeId>,
      open: set<NodeId>)
  {
    && (overran ==> ScansTable(nodes, path, m))
    && forall p :: TableScanned(nodes, path, m, p) ==> overran || p in left || p in open
  }

  /** Of a match that starts with a field that is not exact, a hashed root is gone through. */
  lemma RootScanned(nodes: Heap, path: Paths, m: seq<MatchField>)
    requires ROOT in nodes && ROOT in path && path[ROOT] == [] && nodes[ROOT].kids.Table?
    requires m != [] && m[0].Any?
    ensures ScansTable(nodes, path, m)
  {
    assert TableScanned(nodes, path, m, ROOT);
  }

  /** A match whose fields are all exact goes through no table. */
  lemma ExactScansNone(nodes: Heap, path: Paths, m: seq<MatchField>)
    requires forall i :: 0 <= i < |m| ==> m[i].Exact?
    ensures !ScansTable(nodes, path, m)
  {
    forall p | p in path ensures !Scanned(path, m, p) {
      ExactStays(m, path[p]);
      assert Follow(m, path[p]).Some? && Follow(m, path[p]).value != [] ==>
               Follow(m, path[p]).value[0] in Follow(m, path[p]).value;
    }
  }

  lemma {:induction false} ExactStays(m: seq<MatchField>, ks: seq<Key>)
    requires forall i :: 0 <= i < |m| ==> m[i].Exact?
    ensures Follow(m, ks).Some? ==> forall f :: f in Follow(m, ks).value ==> f.Exact?
    decreases |ks|
  {
    if ks != [] && m != [] && Admits(m[0], ks[0]) {
      ExactStays(Narrow(m, ks[0]), ks[1..]);
    }
  }

  lemma ReadingStarts(nodes: Heap, path: Paths, types: seq<Type>, hash: Key -> nat, m: seq<MatchField>)
    requires Shape(nodes, path, types, hash, None) && !nodes[ROOT].kids.Leaf?
    ensures Reading(nodes, path, m, false, BelowAny(path, Siblings(nodes[ROOT].kids)) + Cover(path, []), {ROOT} + Parents([]))
  {
    BelowChildren(nodes, path, types, hash, ROOT);
    assert UpOk(nodes, path, ROOT);
  }

  /** An exact field leads only to tables below the child taken, if any. */
  lemma ReadingExact(nodes: Heap, path: Paths, hash: Key -> nat, recs: Recs, m: seq<MatchField>, vec: seq<NodeId>,
      j: Job, jobs: seq<Job>, overran: bool, hit: Option<NodeId>)
    requires Shape(nodes, path, MatchTypes(m), hash, None) && AtNode(nodes, path, recs, m, vec, j, jobs)
             && j.stack[0].Exact?
    requires Reading(nodes, path, m, overran, BelowAny(path, j.ids) + Cover(path, jobs), {j.p} + Parents(jobs))
    requires hit.Some? ==> hit.value in j.ids && hit.value in nodes && nodes[hit.value].data == AtomKey(j.stack[0].atom)
    requires hit.None? ==> forall s :: s in j.ids && s in nodes ==> nodes[s].data != AtomKey(j.stack[0].atom)
    ensures hit.Some? ==>
              && hit.value in path
              && Reading(nodes, path, m, overran, Below(path, hit.value) + Cover(path, jobs), Parents(jobs))
    ensures hit.None? ==> Reading(nodes, path, m, overran, Cover(path, jobs), Parents(jobs))
  {
    assert !Scanned(path, m, j.p);
    forall p | TableScanned(nodes, path, m, p) && p in BelowAny(path, j.ids)
      ensures hit.Some? && p in Below(path, hit.value)
    {
      var d :| d in j.ids && d in path && path[d] <= path[p];
      ChildPath(nodes, path, MatchTypes(m), hash, None, j.p, d);
      if nodes[d].data != AtomKey(j.stack[0].atom) {
        Rejected(nodes, path, hash, m, j.p, j.stack, d, p);
      } else {
        ChildPath(nodes, path, MatchTypes(m), hash, None, j.p, hit.value);
        assert SamePath(path, hit.value, d) ==> hit.value == d;
      }
    }
  }

  /** A field that is not exact: the node stays open until its last child, behind which a table is
      read. */
  lemma ReadingAny(nodes: Heap, path: Paths, m: seq<MatchField>, j: Job, jobs: seq<Job>, overran: bool,
      c: NodeId, alt: Option<NodeId>, over: bool, jobs': seq<Job>)
    requires JobOk(nodes, path, m, j) && j.stack[0].Any? && c in path
    requires Reading(nodes, path, m, overran, BelowAny(path, j.ids) + Cover(path, jobs), {j.p} + Parents(jobs))
    requires Below(path, c) + Cover(path, jobs') == BelowAny(path, j.ids) + Cover(path, jobs)
    requires if alt.None? then jobs' == jobs else jobs' != [] && jobs'[0].p == j.p && jobs'[1..] == jobs
    requires over <==> nodes[j.p].kids.Table? && alt == None
    ensures Reading(nodes, path, m, overran || over, Below(path, c) + Cover(path, jobs'), Parents(jobs'))
  {
    assert nodes[j.p].kids.Table? ==> TableScanned(nodes, path, m, j.p);
    hide Follow, Cover, BelowAny, Below;
    if alt.Some? {
      assert jobs' == [jobs'[0]] + jobs;
      assert Parents(jobs') == {j.p} + Parents(jobs);
    }
  }

  /** Going down from `c`. */
  lemma ReadingDown(nodes: Heap, path: Paths, types: seq<Type>, hash: Key -> nat, m: seq<MatchField>, overran: bool,
      c: NodeId, left: set<NodeId>, open: set<NodeId>)
    requires Shape(nodes, path, types, hash, None) && c in nodes
    requires Reading(nodes, path, m, overran, Below(path, c) + left, open)
    ensures nodes[c].kids.Leaf? ==> Below(path, c) == {c} && Reading(nodes, path, m, overran, left, open)
    ensures !nodes[c].kids.Leaf? ==>
              Reading(nodes, path, m, overran, BelowAny(path, Siblings(nodes[c].kids)) + left, {c} + open)
  {
    BelowChildren(nodes, path, types, hash, c);
    if nodes[c].kids.Leaf? {
      NoneBelow(path, nodes);
    }
  }

  /** At the beginning of a round, with what has been read. */
  ghost predicate Before(nodes: Heap, path: Paths, recs: Recs, m: seq<MatchField>, vec: seq<NodeId>, j: Job,
      jobs: seq<Job>, overran: bool)
  {
    && AtNode(nodes, path, recs, m, vec, j, jobs)
    && Reading(nodes, path, m, overran, BelowAny(path, j.ids) + Cover(path, jobs), {j.p} + Parents(jobs))
  }

  /** Before the next frame is taken. */
  ghost predicate Between(nodes: Heap, path: Paths, recs: Recs, m: seq<MatchField>, vec: seq<NodeId>, jobs: seq<Job>,
      overran: bool)
  {
    && AtChoice(nodes, path, recs, m, vec, jobs)
    && Reading(nodes, path, m, overran, Cover(path, jobs), Parents(jobs))
  }

  /** After one round at the children `j.ids`: the child `hit` has been chosen and `jobs'` are the frames,
      or there is none to go on with; what is left to search has not grown. */
  ghost predicate Tried(nodes: Heap, path: Paths, recs: Recs, m: seq<MatchField>, vec: seq<NodeId>, j: Job,
      jobs: seq<Job>, overran: bool, hit: Option<NodeId>, jobs': seq<Job>)
  {
    && (hit.Some? ==>
          && Chosen(nodes, path, recs, m, vec, j.p, j.stack, hit.value, jobs')
          && Below(path, hit.value) + Cover(path, jobs') <= BelowAny(path, j.ids) + Cover(path, jobs)
          && Reading(nodes, path, m, overran, Below(path, hit.value) + Cover(path, jobs'), Parents(jobs')))
    && (hit.None? ==>
          && Between(nodes, path, recs, m, vec, jobs', overran)
          && Cover(path, jobs') < BelowAny(path, j.ids) + Cover(path, jobs))
  }

  /** What a round at a field that is not exact leaves behind. */
  lemma TriedAny(nodes: Heap, path: Paths, types: seq<Type>, hash: Key -> nat, recs: Recs, m: seq<MatchField>,
      vec: seq<NodeId>, cont: seq<Frame>, j: Job, jobs: seq<Job>, overran: bool, from: Option<NodeId>, node: NodeId,
      alt: Option<NodeId>, over: bool, i: nat)
    returns (jobs': seq<Job>)
    requires Shape(nodes, path, types, hash, None) && Before(nodes, path, recs, m, vec, j, jobs, overran)
    requires j.stack[0].Any? && Current(nodes, from, j) && Frames(cont, jobs)
    requires i < |Siblings(nodes[j.p].kids)| && Siblings(nodes[j.p].kids)[i] == node
    requires if from.Some? then node == from.value else i == 0
    requires alt == if i + 1 < |Siblings(nodes[j.p].kids)| then Some(Siblings(nodes[j.p].kids)[i + 1]) else None
    requires over <==> nodes[j.p].kids.Table? && alt == None
    ensures Frames(if alt.Some? then [Frame(alt.value, j.stack)] + cont else cont, jobs')
    ensures Tried(nodes, path, recs, m, vec, j, jobs, overran || over, Some(node), jobs')
  {
    hide Reading, Searching, Pending, Cover, Parents;
    assert KidsOk(nodes, hash, j.p);
    VisitedJob(nodes, path, hash, m, j, from, node, alt, i);
    jobs' := ChooseAny(nodes, path, types, hash, recs, m, vec, j, jobs);
    ReadingAny(nodes, path, m, j, jobs, overran, node, alt, over, jobs');
    FramesPushed(cont, jobs, alt, j.stack, jobs');
  }

  lemma Begin(nodes: Heap, path: Paths, hash: Key -> nat, leaves: seq<NodeId>, recs: Recs, m: seq<MatchField>)
    requires Shape(nodes, path, MatchTypes(m), hash, None) && LeavesOk(nodes, path, MatchTypes(m), leaves, recs)
    requires m != [] && leaves != []
    ensures var j := Job(ROOT, Siblings(nodes[ROOT].kids), m);
            Before(nodes, path, recs, m, [], j, [], false) && Current(nodes, None, j) && Frames([], [])
  {
    MatchStarts(nodes, path, hash, leaves, recs, m);
    ReadingStarts(nodes, path, MatchTypes(m), hash, m);
  }

  /** `match_succeeded`: a leaf is recorded, an inner node is searched next. */
  lemma GoDown(nodes: Heap, path: Paths, hash: Key -> nat, leaves: seq<NodeId>, recs: Recs, m: seq<MatchField>,
      vec: seq<NodeId>, j: Job, jobs: seq<Job>, overran: bool, c: NodeId, jobs': seq<Job>)
    requires Shape(nodes, path, MatchTypes(m), hash, None) && LeavesOk(nodes, path, MatchTypes(m), leaves, recs)
    requires Tried(nodes, path, recs, m, vec, j, jobs, overran, Some(c), jobs')
    ensures c in nodes && j.stack != []
    ensures nodes[c].kids.Leaf? ==>
              && Between(nodes, path, recs, m, vec + [c], jobs', overran)
              && Cover(path, jobs') < BelowAny(path, j.ids) + Cover(path, jobs)
    ensures !nodes[c].kids.Leaf? ==>
              && Current(nodes, None, Job(c, Siblings(nodes[c].kids), Narrow(j.stack, nodes[c].data)))
              && Before(nodes, path, recs, m, vec, Job(c, Siblings(nodes[c].kids), Narrow(j.stack, nodes[c].data)), jobs',
                        overran)
              && BelowAny(path, Siblings(nodes[c].kids)) + Cover(path, jobs') < BelowAny(path, j.ids) + Cover(path, jobs)
  {
    hide Shape, LeavesOk, AtChoice, Reading, Cover;
    Succeeded(nodes, path, hash, leaves, recs, m, vec, j.p, j.stack, c, jobs');
    ReadingDown(nodes, path, MatchTypes(m), hash, m, overran, c, Cover(path, jobs'), Parents(jobs'));
  }

  /** `try_again`: the next frame, or the end of the search. */
  lemma GoBack(nodes: Heap, path: Paths, hash: Key -> nat, leaves: seq<NodeId>, recs: Recs, m: seq<MatchField>,
      vec: seq<NodeId>, jobs: seq<Job>, cont: seq<Frame>, overran: bool)
    requires Shape(nodes, path, MatchTypes(m), hash, None) && LeavesOk(nodes, path, MatchTypes(m), leaves, recs)
    requires Between(nodes, path, recs, m, vec, jobs, overran) && Frames(cont, jobs)
    ensures cont == [] ==>
              && NoDup(vec) && (forall l :: l in vec <==> l in recs && |recs[l].tuple| == |m| && Selected(m, recs[l].tuple))
              && (overran <==> ScansTable(nodes, path, m))
    ensures cont != [] ==>
              && Before(nodes, path, recs, m, vec, jobs[0], jobs[1..], overran) && Frames(cont[1..], jobs[1..])
              && BelowAny(path, jobs[0].ids) + Cover(path, jobs[1..]) == Cover(path, jobs)
              && cont[0].next in nodes && nodes[cont[0].next].parent == jobs[0].p && cont[0].stack == jobs[0].stack
              && Current(nodes, Some(cont[0].next), jobs[0])
  {
    hide Shape, LeavesOk, Reading, ScansTable;
    if cont == [] {
      MatchEnds(nodes, path, leaves, recs, m, vec);
      assert Cover(path, jobs) == {} && Parents(jobs) == {};
      ReadingEnds(nodes, path, m, overran);
    } else {
      NextJob(nodes, path, MatchTypes(m), hash, recs, m, vec, jobs, cont);
      assert JobOk(nodes, path, m, jobs[0]);
      ParentsSplit(jobs);
    }
  }

  lemma ReadingEnds(nodes: Heap, path: Paths, m: seq<MatchField>, overran: bool)
    requires Reading(nodes, path, m, overran, {}, {})
    ensures overran <==> ScansTable(nodes, path, m)
  {
  }

  lemma ParentsSplit(jobs: seq<Job>)
    requires jobs != []
    ensures Parents(jobs) == {jobs[0].p} + Parents(jobs[1..])
  {
    assert jobs == [jobs[0]] + jobs[1..];
  }
}
