/**
  The number of references that a trie reports (`number_of_references` in predicates/db/trie.hpp) and
  the deletions that have been announced but not committed.
*/
module TrieAccounts {
  import opened Common
  import opened Tuples
  import opened TrieShape
  import opened TrieContents
  import opened TrieLeaves

  /** `delete_info`. */
  datatype DeleteInfo = DeleteInfo(toDelete: bool, node: NodeId, many: int)

  ghost function Owing(leaves: seq<NodeId>, owed: map<NodeId, nat>): int {
    if leaves == [] then 0 else (if leaves[0] in owed then owed[leaves[0]] else 0) + Owing(leaves[1..], owed)
  }

  /** `owed` counts, for each leaf, the deletions announced by `DeleteTuple` and not yet committed.
      The number of references is the sum of all counts and all that is owed. */
  ghost predicate Accounted(leaves: seq<NodeId>, recs: Recs, references: int, owed: map<NodeId, nat>) {
    && owed.Keys == recs.Keys && (forall n :: n in leaves ==> n in recs)
    && references == Total(ContentsOf(leaves, recs)) + Owing(leaves, owed)
    && forall n {:trigger Alive(recs, owed, n)} :: n in recs ==> Alive(recs, owed, n)
  }

  ghost predicate Alive(recs: Recs, owed: map<NodeId, nat>, n: NodeId)
    requires n in recs && n in owed
  {
    recs[n].count >= 0 && recs[n].count + owed[n] > 0
  }

  /** The effect of `delete_tuple`. */
  ghost predicate Deleted(c: seq<Entry>, references: int, owed: map<NodeId, nat>,
      c': seq<Entry>, references': int, owed': map<NodeId, nat>, tuple: seq<Value>, many: int, info: DeleteInfo)
    requires many >= 0
  {
    if !Stored(c, tuple) then
      !info.toDelete && c' == c && references' == references && owed' == owed
    else
      && c' == Bump(c, tuple, -many)
      && (info.toDelete <==> Count(c, tuple) == many)
      && (if info.toDelete then
            info.many == many && references' == references
            && info.node in owed && owed' == owed[info.node := owed[info.node] + many]
          else
            references' == references - many && owed' == owed)
  }

  // ---------------------------------------------------------------- each operation keeps the account

  lemma InsertAccounts(leaves: seq<NodeId>, recs: Recs, references: int, owed: map<NodeId, nat>, leaves': seq<NodeId>,
      recs': Recs, tuple: seq<Value>, many: int, noFields: bool, node: Option<NodeId>, found: bool)
    requires Accounted(leaves, recs, references, owed) && many > 0
    requires Checked(leaves, recs, leaves', recs', tuple, many, noFields, node, found)
    requires forall n :: n in leaves' ==> n in recs'
    requires ContentsOf(leaves', recs') == Bump(ContentsOf(leaves, recs), tuple, many)
    ensures Accounted(leaves', recs', references + many, if found then owed else owed[node.value := 0])
  {
    var owed' := if found then owed else owed[node.value := 0];
    BumpCounts(ContentsOf(leaves, recs), tuple, many, tuple);
    if !found {
      OwingAppend(leaves, owed, node.value);
    }
    forall n | n in recs' ensures Alive(recs', owed', n) {
      if n in recs {
        assert Alive(recs, owed, n);
      }
    }
  }

  lemma DeleteAccounts(leaves: seq<NodeId>, recs: Recs, references: int, owed: map<NodeId, nat>, recs': Recs,
      tuple: seq<Value>, many: int, n: NodeId)
    requires Accounted(leaves, recs, references, owed) && NoDup(leaves) && Distinct(ContentsOf(leaves, recs))
    requires n in leaves && recs[n].tuple == tuple && many > 0
    requires recs' == Recounted(recs, n, -many)
    requires ContentsOf(leaves, recs') == Bump(ContentsOf(leaves, recs), tuple, -many)
    ensures n in owed
    ensures var zero := recs'[n].count == 0;
            var references' := if zero then references else references - many;
            var owed' := if zero then owed[n := owed[n] + many] else owed;
            && (Accounted(leaves, recs', references', owed') <==> many <= Count(ContentsOf(leaves, recs), tuple))
            && Deleted(ContentsOf(leaves, recs), references, owed, ContentsOf(leaves, recs'), references', owed', tuple, many,
                       if zero then DeleteInfo(true, n, many) else DeleteInfo(false, ROOT, 0))
  {
    hide Owing, Total, Distinct, NoDup, Bump, Count, ContentsOf;
    CountOfLeaf(leaves, recs, n);
    DeleteTotal(leaves, recs, references, owed, recs', tuple, many, n);
    var owed' := if recs'[n].count == 0 then owed[n := owed[n] + many] else owed;
    forall m | m in recs' ensures Alive(recs', owed', m) <==> m != n || many <= Count(ContentsOf(leaves, recs), tuple) {
      assert Alive(recs, owed, m);
    }
  }

  lemma DeleteTotal(leaves: seq<NodeId>, recs: Recs, references: int, owed: map<NodeId, nat>, recs': Recs,
      tuple: seq<Value>, many: int, n: NodeId)
    requires Accounted(leaves, recs, references, owed) && NoDup(leaves) && n in leaves && many > 0
    requires recs'.Keys == recs.Keys && ContentsOf(leaves, recs') == Bump(ContentsOf(leaves, recs), tuple, -many)
    ensures references == Total(ContentsOf(leaves, recs')) + Owing(leaves, owed[n := owed[n] + many])
    ensures references - many == Total(ContentsOf(leaves, recs')) + Owing(leaves, owed)
  {
    BumpCounts(ContentsOf(leaves, recs), tuple, -many, tuple);
    OwingUpdate(leaves, owed, n, owed[n] + many);
  }

  /** The references stay accounted for when an announced deletion is committed, unless the leaf goes
      away while more is owed on it: then those references are never given back. */
  lemma CommitAccounts(leaves: seq<NodeId>, recs: Recs, references: int, owed: map<NodeId, nat>, n: NodeId, many: int)
    requires Accounted(leaves, recs, references, owed) && NoDup(leaves) && (forall m :: m in leaves <==> m in recs)
    requires Distinct(ContentsOf(leaves, recs)) && n in recs && 0 <= many <= owed[n]
    ensures forall m :: m in Without(leaves, n) ==> m in recs - {n}
    ensures recs[n].count == 0 ==>
              (Accounted(Without(leaves, n), recs - {n}, references - many, owed - {n}) <==> owed[n] == many)
    ensures recs[n].count != 0 ==> Accounted(leaves, recs, references - many, owed[n := owed[n] - many])
  {
    assert forall m :: m in recs ==> Alive(recs, owed, m);
    WithoutIs(leaves, n);
    if recs[n].count == 0 {
      RemoveAccounts(leaves, recs, references - owed[n], owed, n);
    } else {
      OwingUpdate(leaves, owed, n, owed[n] - many);
      forall m | m in recs ensures Alive(recs, owed[n := owed[n] - many], m) {
        assert Alive(recs, owed, m);
      }
    }
  }

  lemma RemoveAccounts(leaves: seq<NodeId>, recs: Recs, references: int, owed: map<NodeId, nat>, n: NodeId)
    requires owed.Keys == recs.Keys && NoDup(leaves) && (forall m :: m in leaves <==> m in recs)
    requires Distinct(ContentsOf(leaves, recs)) && n in recs && recs[n].count == 0
    requires references == Total(ContentsOf(leaves, recs)) + Owing(leaves, owed) - owed[n]
    requires forall m :: m in recs && m != n ==> Alive(recs, owed, m)
    ensures forall m :: m in Without(leaves, n) ==> m in recs - {n}
    ensures Accounted(Without(leaves, n), recs - {n}, references, owed - {n})
  {
    WithoutIs(leaves, n);
    ContentsWithout(leaves, recs, n);
    DropTotal(leaves, recs, n);
    OwingWithout(leaves, owed, n);
    forall m | m in recs - {n} ensures Alive(recs - {n}, owed - {n}, m) {
      assert Alive(recs, owed, m);
    }
  }

  lemma DropTotal(leaves: seq<NodeId>, recs: Recs, n: NodeId)
    requires NoDup(leaves) && n in leaves && forall m :: m in leaves ==> m in recs
    requires Distinct(ContentsOf(leaves, recs))
    ensures Total(Drop(ContentsOf(leaves, recs), recs[n].tuple)) == Total(ContentsOf(leaves, recs)) - recs[n].count
  {
    CountOfLeaf(leaves, recs, n);
    DropCounts(ContentsOf(leaves, recs), recs[n].tuple, recs[n].tuple);
  }

  /** The references stay accounted for when one is taken away at a leaf that has one, unless that was the
      last one while an earlier deletion is still announced. */
  lemma ByLeafAccounts(leaves: seq<NodeId>, recs: Recs, references: int, owed: map<NodeId, nat>, n: NodeId, recs': Recs)
    requires Accounted(leaves, recs, references, owed) && NoDup(leaves) && (forall m :: m in leaves <==> m in recs)
    requires Distinct(ContentsOf(leaves, recs)) && n in recs
    requires recs' == Recounted(recs, n, -1)
    requires ContentsOf(leaves, recs') == Bump(ContentsOf(leaves, recs), recs[n].tuple, -1)
    ensures forall m :: m in Without(leaves, n) ==> m in recs' - {n}
    ensures recs'[n].count != 0 ==> (Accounted(leaves, recs', references - 1, owed) <==> recs[n].count > 0)
    ensures recs'[n].count == 0 ==> (Accounted(Without(leaves, n), recs' - {n}, references - 1, owed - {n}) <==>
            owed[n] == 0)
  {
    BumpCounts(ContentsOf(leaves, recs), recs[n].tuple, -1, recs[n].tuple);
    BumpDistinct(ContentsOf(leaves, recs), recs[n].tuple, -1);
    WithoutIs(leaves, n);
    forall m | m in recs
      ensures m != n || recs'[n].count > 0 ==> Alive(recs', owed, m)
      ensures m == n && recs'[n].count < 0 ==> !Alive(recs', owed, m)
      ensures recs[m].count >= 0
    {
      assert Alive(recs, owed, m);
    }
    if recs'[n].count == 0 {
      RemoveAccounts(leaves, recs', references - 1 - owed[n], owed, n);
    }
  }

  // ---------------------------------------------------------------- what is owed

  lemma {:induction false} OwingSplit(a: seq<NodeId>, b: seq<NodeId>, owed: map<NodeId, nat>)
    ensures Owing(a + b, owed) == Owing(a, owed) + Owing(b, owed)
  {
    if a == [] {
      assert a + b == b;
    } else {
      assert (a + b)[1..] == a[1..] + b;
      OwingSplit(a[1..], b, owed);
    }
  }

  /** What is owed elsewhere does not matter. */
  lemma {:induction false} OwingFrame(leaves: seq<NodeId>, owed: map<NodeId, nat>, owed': map<NodeId, nat>)
    requires forall n :: n in leaves ==> (n in owed <==> n in owed') && (n in owed ==> owed'[n] == owed[n])
    ensures Owing(leaves, owed') == Owing(leaves, owed)
  {
    if leaves != [] {
      assert leaves[0] in leaves;
      OwingFrame(leaves[1..], owed, owed');
    }
  }

  lemma OwingAppend(leaves: seq<NodeId>, owed: map<NodeId, nat>, n: NodeId)
    requires n !in leaves
    ensures Owing(leaves + [n], owed[n := 0]) == Owing(leaves, owed)
  {
    OwingSplit(leaves, [n], owed[n := 0]);
    OwingFrame(leaves, owed, owed[n := 0]);
    assert [n][1..] == [];
  }

  lemma OwingAt(leaves: seq<NodeId>, owed: map<NodeId, nat>, i: nat)
    requires i < |leaves| && leaves[i] in owed
    ensures Owing(leaves, owed) == Owing(leaves[..i], owed) + owed[leaves[i]] + Owing(leaves[i + 1..], owed)
  {
    assert leaves == leaves[..i] + ([leaves[i]] + leaves[i + 1..]);
    OwingSplit(leaves[..i], [leaves[i]] + leaves[i + 1..], owed);
    assert ([leaves[i]] + leaves[i + 1..])[1..] == leaves[i + 1..];
  }

  lemma OwingUpdate(leaves: seq<NodeId>, owed: map<NodeId, nat>, n: NodeId, v: nat)
    requires NoDup(leaves) && n in leaves && n in owed
    ensures Owing(leaves, owed[n := v]) == Owing(leaves, owed) - owed[n] + v
  {
    var i :| 0 <= i < |leaves| && leaves[i] == n;
    OwingAt(leaves, owed, i);
    OwingAt(leaves, owed[n := v], i);
    OthersDiffer(leaves, i);
    OwingFrame(leaves[..i], owed, owed[n := v]);
    OwingFrame(leaves[i + 1..], owed, owed[n := v]);
  }

  lemma OthersDiffer(leaves: seq<NodeId>, i: nat)
    requires NoDup(leaves) && i < |leaves|
    ensures leaves[i] !in leaves[..i] && leaves[i] !in leaves[i + 1..]
  {
    forall j | 0 <= j < |leaves| && leaves[j] == leaves[i] ensures j == i {
      SamePosition(leaves, i, j);
    }
  }

  lemma OwingWithout(leaves: seq<NodeId>, owed: map<NodeId, nat>, n: NodeId)
    requires NoDup(leaves) && n in leaves && n in owed
    ensures Owing(Without(leaves, n), owed - {n}) == Owing(leaves, owed) - owed[n]
  {
    var i :| 0 <= i < |leaves| && leaves[i] == n;
    OwingAt(leaves, owed, i);
    WithoutAt(leaves, i);
    OwingSplit(leaves[..i], leaves[i + 1..], owed);
    WithoutIs(leaves, n);
    OwingFrame(Without(leaves, n), owed, owed - {n});
  }
}
