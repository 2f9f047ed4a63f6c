/**
  What a trie stores, seen from outside: tuples with reference counts, in the order in which they were
  first inserted.  The operations of the trie are specified here on that list.
*/
module TrieContents {
  import opened Common
  import opened Tuples

  datatype Entry = Entry(tuple: seq<Value>, count: int)

  /** Every tuple occurs once. */
  ghost predicate Distinct(c: seq<Entry>) {
    forall i, j {:trigger Apart(c, i, j)} :: 0 <= i < j < |c| ==> Apart(c, i, j)
  }

  ghost predicate Apart(c: seq<Entry>, i: nat, j: nat)
    requires i < |c| && j < |c|
  {
    c[i].tuple != c[j].tuple
  }

  predicate Stored(c: seq<Entry>, t: seq<Value>) {
    exists i :: 0 <= i < |c| && c[i].tuple == t
  }

  /** The reference count of a tuple. */
  function Count(c: seq<Entry>, t: seq<Value>): int {
    if c == [] then 0 else if c[0].tuple == t then c[0].count else Count(c[1..], t)
  }

  /** Adds to the count of a tuple, appending the tuple when it is new. */
  function Bump(c: seq<Entry>, t: seq<Value>, many: int): seq<Entry> {
    if c == [] then [Entry(t, many)]
    else if c[0].tuple == t then [Entry(t, c[0].count + many)] + c[1..]
    else [c[0]] + Bump(c[1..], t, many)
  }

  /** Drops the entry of a tuple. */
  function Drop(c: seq<Entry>, t: seq<Value>): seq<Entry> {
    if c == [] then [] else if c[0].tuple == t then c[1..] else [c[0]] + Drop(c[1..], t)
  }

  /** The tuple agrees with the leading exact fields. */
  predicate Led(m: seq<MatchField>, t: seq<Value>) {
    if m == [] || m[0].Any? then true else t != [] && Agrees(m[0], t[0]) && Led(m[1..], t[1..])
  }

  function DropLed(c: seq<Entry>, m: seq<MatchField>): seq<Entry> {
    if c == [] then [] else (if Led(m, c[0].tuple) then [] else [c[0]]) + DropLed(c[1..], m)
  }

  function Total(c: seq<Entry>): int {
    if c == [] then 0 else c[0].count + Total(c[1..])
  }

  // ---------------------------------------------------------------- the list as a multiset

  /** Adding and removing references changes the count of that tuple and of no other, and keeps the
      order of the tuples already there. */
  lemma {:induction false} BumpCounts(c: seq<Entry>, t: seq<Value>, many: int, u: seq<Value>)
    ensures Count(Bump(c, t, many), u) == Count(c, u) + (if u == t then many else 0)
    ensures Stored(Bump(c, t, many), u) <==> Stored(c, u) || u == t
    ensures Total(Bump(c, t, many)) == Total(c) + many
  {
    var c' := Bump(c, t, many);
    if c == [] {
      assert c'[0].tuple == t;
    } else if c[0].tuple == t {
      assert c'[1..] == c[1..];
      if Stored(c', u) {
        var i :| 0 <= i < |c'| && c'[i].tuple == u;
        assert c[i].tuple == u;
      }
      if Stored(c, u) {
        var i :| 0 <= i < |c| && c[i].tuple == u;
        assert c'[i].tuple == u;
      }
      assert c'[0].tuple == t;
    } else {
      assert c'[1..] == Bump(c[1..], t, many);
      BumpCounts(c[1..], t, many, u);
      StoredTail(c, u);
      StoredTail(c', u);
    }
  }

  lemma StoredTail(c: seq<Entry>, u: seq<Value>)
    requires c != []
    ensures Stored(c, u) <==> c[0].tuple == u || Stored(c[1..], u)
  {
    if Stored(c, u) && c[0].tuple != u {
      var i :| 0 <= i < |c| && c[i].tuple == u;
      assert c[1..][i - 1].tuple == u;
    }
    if Stored(c[1..], u) {
      var i :| 0 <= i < |c[1..]| && c[1..][i].tuple == u;
      assert c[i + 1].tuple == u;
    }
  }

  lemma {:induction false} DropCounts(c: seq<Entry>, t: seq<Value>, u: seq<Value>)
    requires Distinct(c)
    ensures Count(Drop(c, t), u) == (if u == t then 0 else Count(c, u))
    ensures Stored(Drop(c, t), u) <==> Stored(c, u) && u != t
    ensures Total(Drop(c, t)) == Total(c) - Count(c, t)
  {
    if c != [] {
      StoredTail(c, u);
      DistinctTail(c);
      if c[0].tuple == t {
        if u == t {
          NotStored(c[1..], t);
        }
      } else {
        DropCounts(c[1..], t, u);
        StoredTail(Drop(c, t), u);
        assert Drop(c, t)[1..] == Drop(c[1..], t);
      }
    }
  }

  lemma DistinctTail(c: seq<Entry>)
    requires Distinct(c) && c != []
    ensures Distinct(c[1..]) && !Stored(c[1..], c[0].tuple)
  {
    forall i, j | 0 <= i < j < |c[1..]| ensures Apart(c[1..], i, j) {
      assert Apart(c, i + 1, j + 1);
    }
    forall i | 0 <= i < |c[1..]| ensures c[1..][i].tuple != c[0].tuple {
      assert Apart(c, 0, i + 1);
    }
  }

  /** Dropping what is led by some exact fields leaves the counts of all other tuples. */
  lemma {:induction false} DropLedCounts(c: seq<Entry>, m: seq<MatchField>, u: seq<Value>)
    ensures Count(DropLed(c, m), u) == if Led(m, u) then 0 else Count(c, u)
    ensures Stored(DropLed(c, m), u) <==> Stored(c, u) && !Led(m, u)
  {
    if c != [] {
      DropLedCounts(c[1..], m, u);
      StoredTail(c, u);
      var rest := DropLed(c[1..], m);
      if Led(m, c[0].tuple) {
        NothingInFront(rest);
      } else {
        assert DropLed(c, m)[1..] == rest;
        StoredTail(DropLed(c, m), u);
      }
    }
  }

  lemma {:induction false} NotStored(c: seq<Entry>, t: seq<Value>)
    requires !Stored(c, t)
    ensures Count(c, t) == 0
  {
    if c != [] {
      StoredTail(c, t);
      NotStored(c[1..], t);
    }
  }

  /** The tuples in order. */
  function TuplesOf(c: seq<Entry>): (ts: seq<seq<Value>>)
    ensures |ts| == |c| && forall i :: 0 <= i < |c| ==> ts[i] == c[i].tuple
  {
    seq(|c|, i requires 0 <= i < |c| => c[i].tuple)
  }

  /** A new tuple goes to the end, an old one stays where it is. */
  lemma {:induction false} BumpOrder(c: seq<Entry>, t: seq<Value>, many: int)
    ensures TuplesOf(Bump(c, t, many)) == if Stored(c, t) then TuplesOf(c) else TuplesOf(c) + [t]
  {
    if c != [] {
      StoredTail(c, t);
      TuplesCons(c);
      TuplesCons(Bump(c, t, many));
      if c[0].tuple != t {
        BumpOrder(c[1..], t, many);
        assert Bump(c, t, many)[1..] == Bump(c[1..], t, many);
      } else {
        assert Bump(c, t, many)[1..] == c[1..];
      }
    }
  }

  lemma TuplesCons(c: seq<Entry>)
    requires c != []
    ensures TuplesOf(c) == [c[0].tuple] + TuplesOf(c[1..])
  {
  }

  lemma BumpDistinct(c: seq<Entry>, t: seq<Value>, many: int)
    requires Distinct(c)
    ensures Distinct(Bump(c, t, many))
  {
    BumpOrder(c, t, many);
    var c' := Bump(c, t, many);
    forall i, j | 0 <= i < j < |c'| ensures Apart(c', i, j) {
      assert TuplesOf(c')[i] == c'[i].tuple && TuplesOf(c')[j] == c'[j].tuple;
      assert TuplesOf(c')[i] == TuplesOf(c)[i] == c[i].tuple;
      if j < |c| {
        assert Apart(c, i, j);
      }
    }
  }

  // ---------------------------------------------------------------- by position

  lemma {:induction false} BumpAt(c: seq<Entry>, i: nat, many: int)
    requires Distinct(c) && i < |c|
    ensures Bump(c, c[i].tuple, many) == c[i := Entry(c[i].tuple, c[i].count + many)]
  {
    if i > 0 {
      DistinctTail(c);
      assert Apart(c, 0, i) && c[1..][i - 1] == c[i];
      BumpAt(c[1..], i - 1, many);
      ConsUpdate(c, i, Entry(c[i].tuple, c[i].count + many));
    }
  }

  lemma {:induction false} BumpNew(c: seq<Entry>, t: seq<Value>, many: int)
    requires !Stored(c, t)
    ensures Bump(c, t, many) == c + [Entry(t, many)]
  {
    if c != [] {
      StoredTail(c, t);
      BumpNew(c[1..], t, many);
      assert [c[0]] + (c[1..] + [Entry(t, many)]) == c + [Entry(t, many)];
    }
  }

  lemma {:induction false} DropAt(c: seq<Entry>, i: nat)
    requires Distinct(c) && i < |c|
    ensures Drop(c, c[i].tuple) == c[..i] + c[i + 1..]
  {
    if i > 0 {
      var rest := c[1..];
      DistinctTail(c);
      assert Apart(c, 0, i) && rest[i - 1] == c[i];
      DropAt(rest, i - 1);
      ConsSplit(c, i);
    }
  }

  lemma ConsUpdate(c: seq<Entry>, i: nat, e: Entry)
    requires 0 < i < |c|
    ensures [c[0]] + c[1..][i - 1 := e] == c[i := e]
  {
  }

  lemma ConsSplit(c: seq<Entry>, i: nat)
    requires 0 < i < |c|
    ensures [c[0]] + (c[1..][..i - 1] + c[1..][i..]) == c[..i] + c[i + 1..]
  {
  }

  lemma {:induction false} CountAt(c: seq<Entry>, i: nat)
    requires Distinct(c) && i < |c|
    ensures Count(c, c[i].tuple) == c[i].count
  {
    if i > 0 {
      DistinctTail(c);
      assert Apart(c, 0, i) && c[1..][i - 1] == c[i];
      CountAt(c[1..], i - 1);
    }
  }
}
