/**
  Short runs of the tuple trie of predicates/db/trie.cpp in which a leaf goes away while a deletion of
  its tuple is still announced.  Each ends without a leaf but with a reference, where
  `basic_invariants` of predicates/db/trie.hpp asserts that the root has a child, and with the node of a
  deletion that is still announced gone.  In the last one more is deleted than there is.
*/
module TrieRuns {
  import opened Common
  import opened Tuples
  import opened TrieShape
  import opened TrieContents
  import opened TrieLeaves
  import opened TrieAccounts
  import opened TrieCut
  import opened Trie

  const INT_TYPES := [AtomType(IntKind)]
  const FIVE := [One(IntAtom(5))]

  /** A trie with one tuple and one reference. */
  method OneTuple() returns (trie: TupleTrie)
    ensures fresh(trie) && trie.Valid() && trie.types == INT_TYPES && trie.references == 1
    ensures trie.Contents() == [Entry(FIVE, 1)] && forall n :: n in trie.owed ==> trie.owed[n] == 0
  {
    hide Shape, Total, Owing;
    assert HasTypes(FIVE, INT_TYPES);
    trie := new TupleTrie(INT_TYPES, _ => 0);
    assert trie.leaves == [];
    var isNew := trie.InsertTuple(FIVE, 1);
  }

  /** Its only reference has been deleted; that is not committed yet. */
  method Announced() returns (trie: TupleTrie, info: DeleteInfo)
    ensures fresh(trie) && trie.Valid() && trie.types == INT_TYPES && trie.references == 1
    ensures trie.leaves == [info.node] && info.toDelete && info.many == 1
    ensures info.node in trie.recs && trie.recs[info.node] == Rec(FIVE, 0) && trie.owed[info.node] == 1
  {
    hide Shape, Total, Owing;
    assert HasTypes(FIVE, INT_TYPES);
    trie := OneTuple();
    var asserted;
    info, asserted := trie.DeleteTuple(FIVE, 1);
    assert trie.Contents() == [Entry(FIVE, 0)];
  }

  /** The same with the tuple inserted again. */
  method InsertedAgain() returns (trie: TupleTrie, info: DeleteInfo)
    ensures fresh(trie) && trie.Valid() && trie.types == INT_TYPES && trie.references == 2
    ensures trie.leaves == [info.node] && info.toDelete && info.many == 1
    ensures info.node in trie.recs && trie.recs[info.node] == Rec(FIVE, 1) && trie.owed[info.node] == 1
  {
    assert HasTypes(FIVE, INT_TYPES);
    trie, info := Announced();
    assert trie.Contents() == [Entry(FIVE, 0)];
    var isNew := trie.InsertTuple(FIVE, 1);
    assert trie.Contents() == [Entry(FIVE, 1)];
  }

  /** The leaf of a tuple with a field is not the root, and in a trie without leaves there is only the root. */
  lemma LeafBelowRoot(trie: TupleTrie, n: NodeId)
    requires trie.Valid() && n in trie.recs && trie.recs[n].tuple == FIVE
    ensures n != ROOT
  {
    assert LeafOk(trie.nodes, trie.path, trie.types, trie.recs, n) && UpOk(trie.nodes, trie.path, ROOT);
  }

  lemma OnlyRootLeft(trie: TupleTrie, n: NodeId)
    requires trie.Ready(None) && trie.leaves == [] && n != ROOT
    ensures n !in trie.nodes
  {
    if n in trie.nodes {
      NoLeafNoNode(trie.nodes, trie.path, trie.types, trie.hash, trie.leaves, trie.recs, n);
    }
  }

  /** Insert, delete, insert, delete, and commit the first deletion. */
  method CommitTooSmall() returns (trie: TupleTrie, second: DeleteInfo)
    ensures trie.references == 1 && trie.leaves == [] && !trie.Valid()
    ensures second.toDelete && second.node !in trie.nodes
  {
    assert HasTypes(FIVE, INT_TYPES);
    var first;
    trie, first := InsertedAgain();
    assert trie.Contents() == [Entry(FIVE, 1)];
    var asserted;
    second, asserted := trie.DeleteTuple(FIVE, 1);
    assert trie.Contents() == [Entry(FIVE, 0)];
    assert trie.owed[first.node] == 2;
    LeafBelowRoot(trie, second.node);
    trie.CommitDelete(first);
    OnlyRootLeft(trie, second.node);
  }

  /** Insert, delete, insert, and delete by leaf. */
  method ByLeafTooEarly() returns (trie: TupleTrie, info: DeleteInfo)
    ensures trie.references == 1 && trie.leaves == [] && !trie.Valid()
    ensures info.toDelete && info.node !in trie.nodes
  {
    trie, info := InsertedAgain();
    assert trie.Contents() == [Entry(FIVE, 1)];
    LeafBelowRoot(trie, info.node);
    trie.DeleteByLeaf(info.node);
    OnlyRootLeft(trie, info.node);
  }

  /** Insert, delete, and delete all by index. */
  method ByIndexTooEarly() returns (trie: TupleTrie, info: DeleteInfo)
    ensures trie.references == 1 && trie.leaves == [] && !trie.Valid()
    ensures info.toDelete && info.node !in trie.nodes
  {
    trie, info := Announced();
    var all := [Any(AtomType(IntKind))];
    assert MatchTypes(all) == INT_TYPES;
    assert trie.Contents() == [Entry(FIVE, 0)];
    LeafBelowRoot(trie, info.node);
    var asserted := trie.DeleteByIndex(all);
    OnlyRootLeft(trie, info.node);
  }

  /** Insert one reference and delete two. */
  method DeleteTooMany() returns (trie: TupleTrie)
    ensures (forall n :: n in trie.leaves ==> n in trie.recs) && trie.Contents() == [Entry(FIVE, -1)]
    ensures trie.references == -1 && !trie.Valid()
  {
    hide Shape, Total, Owing;
    assert HasTypes(FIVE, INT_TYPES);
    trie := OneTuple();
    assert trie.Contents()[0].tuple == FIVE;
    var info, asserted := trie.DeleteTuple(FIVE, 2);
    assert trie.Contents() == [Entry(FIVE, -1)];
  }
}
