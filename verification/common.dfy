/** Small vocabulary shared by the component models. */
module Common {

  type Byte = x: int | 0 <= x < 256

  datatype Option<+T> = None | Some(value: T)

  /** No value occurs at two positions. */
  ghost predicate NoDup<T>(s: seq<T>) {
    forall i, j {:trigger Differ(s, i, j)} :: 0 <= i < j < |s| ==> Differ(s, i, j)
  }

  ghost predicate Differ<T>(s: seq<T>, i: nat, j: nat)
    requires i < |s| && j < |s|
  {
    s[i] != s[j]
  }

  lemma SamePosition<T>(s: seq<T>, i: nat, j: nat)
    requires NoDup(s) && i < |s| && j < |s| && s[i] == s[j]
    ensures i == j
  {
    assert i < j ==> Differ(s, i, j);
    assert j < i ==> Differ(s, j, i);
  }

  lemma NoDupTail<T>(s: seq<T>)
    requires NoDup(s) && s != []
    ensures NoDup(s[1..]) && s[0] !in s[1..]
  {
    forall i, j | 0 <= i < j < |s[1..]| ensures Differ(s[1..], i, j) {
      assert Differ(s, i + 1, j + 1);
    }
    forall i | 0 <= i < |s[1..]| ensures s[1..][i] != s[0] {
      assert Differ(s, 0, i + 1);
    }
  }

  /** Two sequences without common values. */
  lemma NoDupAppend<T>(a: seq<T>, b: seq<T>)
    requires NoDup(a) && NoDup(b) && forall i :: 0 <= i < |b| ==> b[i] !in a
    ensures NoDup(a + b)
  {
    forall i, j | 0 <= i < j < |a + b| ensures Differ(a + b, i, j) {
      if j < |a| {
        assert Differ(a, i, j);
      } else if i >= |a| {
        assert Differ(b, i - |a|, j - |a|);
      } else {
        assert a[i] in a;
      }
    }
  }

  /** The middle of a sequence without duplicates, and what is before it. */
  lemma NoDupMiddle<T>(a: seq<T>, m: seq<T>, b: seq<T>)
    requires NoDup(a + m + b)
    ensures NoDup(m) && forall c :: c in m ==> c !in a
  {
    var s := a + m + b;
    forall i, j | 0 <= i < j < |m| ensures Differ(m, i, j) {
      assert Differ(s, |a| + i, |a| + j);
    }
    forall c | c in m ensures c !in a {
      var k :| 0 <= k < |m| && m[k] == c;
      forall j | 0 <= j < |a| ensures a[j] != c {
        assert Differ(s, j, |a| + k);
      }
    }
  }

  lemma NoDupInsert<T>(a: seq<T>, c: T, b: seq<T>)
    requires NoDup(a + b) && c !in a + b
    ensures NoDup(a + [c] + b)
  {
    var s, t := a + [c] + b, a + b;
    forall i, j | 0 <= i < j < |s| ensures Differ(s, i, j) {
      var i' := if i < |a| then i else i - 1;
      var j' := if j < |a| then j else j - 1;
      if i == |a| {
        assert s[j] == t[j'];
      } else if j == |a| {
        assert s[i] == t[i'];
      } else {
        assert Differ(t, i', j');
      }
    }
  }

  lemma NoDupFront<T>(c: T, ids: seq<T>)
    requires NoDup(ids) && c !in ids
    ensures NoDup([c] + ids)
  {
    assert [] + ids == ids && [] + [c] + ids == [c] + ids;
    NoDupInsert([], c, ids);
  }

  lemma NoDupRemove<T>(a: seq<T>, c: T, b: seq<T>)
    requires NoDup(a + [c] + b)
    ensures NoDup(a + b) && forall x :: x in a + b <==> x != c && x in a + [c] + b
  {
    var s, t := a + [c] + b, a + b;
    forall i, j | 0 <= i < j < |t| ensures Differ(t, i, j) {
      assert Differ(s, if i < |a| then i else i + 1, if j < |a| then j else j + 1);
    }
    assert s[|a|] == c;
    forall x | x in t ensures x != c && x in s {
      var i :| 0 <= i < |t| && t[i] == x;
      if i < |a| {
        assert Differ(s, i, |a|) && s[i] == x;
      } else {
        assert Differ(s, |a|, i + 1) && s[i + 1] == x;
      }
    }
  }

  /** The sequences one after the other. */
  function Concat<T>(ss: seq<seq<T>>): seq<T> {
    if ss == [] then [] else ss[0] + Concat(ss[1..])
  }

  /** Replacing one of them replaces its stretch. */
  lemma {:induction false} ConcatUpdate<T>(ss: seq<seq<T>>, i: nat, s: seq<T>)
    requires i < |ss|
    ensures Concat(ss) == Concat(ss[..i]) + ss[i] + Concat(ss[i + 1..])
    ensures Concat(ss[i := s]) == Concat(ss[..i]) + s + Concat(ss[i + 1..])
  {
    if i > 0 {
      ConcatUpdate(ss[1..], i - 1, s);
      assert ss[1..][..i - 1] == ss[..i][1..];
      assert ss[1..][i..] == ss[i + 1..];
      assert ss[i := s][1..] == ss[1..][i - 1 := s];
    } else {
      assert ss[i := s][1..] == ss[1..];
    }
  }

  lemma ConcatTake<T>(ss: seq<seq<T>>, i: nat)
    requires i < |ss|
    ensures Concat(ss[..i + 1]) == Concat(ss[..i]) + ss[i]
  {
    ConcatUpdate(ss[..i + 1], i, []);
    assert ss[..i + 1][..i] == ss[..i] && ss[..i + 1][i + 1..] == [];
    assert Concat(ss[..i]) + ss[i] + [] == Concat(ss[..i]) + ss[i];
  }

  lemma ConcatLast<T>(ss: seq<seq<T>>, s: seq<T>)
    ensures Concat(ss + [s]) == Concat(ss) + s
  {
    ConcatTake(ss + [s], |ss|);
    assert (ss + [s])[..|ss|] == ss && (ss + [s])[..|ss| + 1] == ss + [s];
  }

  lemma {:induction false} ConcatEmpty<T>(ss: seq<seq<T>>)
    requires forall i :: 0 <= i < |ss| ==> ss[i] == []
    ensures Concat(ss) == []
  {
    if ss != [] {
      ConcatEmpty(ss[1..]);
    }
  }

  lemma NothingInFront<T>(a: seq<T>)
    ensures [] + a == a
  {
  }

  lemma Associate<T>(a: seq<T>, b: seq<T>, c: seq<T>)
    ensures a + (b + c) == a + b + c
  {
  }

  // ---------------------------------------------------------------- powers of two

  function Pow2(n: nat): (p: nat)
    ensures p > 0
  {
    if n == 0 then 1 else 2 * Pow2(n - 1)
  }

  lemma {:induction false} Pow2Grows(a: nat, b: nat)
    requires a < b
    ensures Pow2(a) < Pow2(b)
  {
    if a < b - 1 {
      Pow2Grows(a, b - 1);
    }
  }

  // ---------------------------------------------------------------- writing into memory

  /** The memory `c` with `r` written at `lo`. */
  ghost function Patched<T>(c: seq<T>, lo: nat, r: seq<T>): (p: seq<T>)
    requires lo + |r| <= |c|
    ensures |p| == |c|
  {
    c[..lo] + r + c[lo + |r|..]
  }

  lemma PatchTwice<T>(c: seq<T>, lo: nat, r1: seq<T>, r2: seq<T>)
    requires lo + |r1| + |r2| <= |c|
    ensures Patched(Patched(c, lo, r1), lo + |r1|, r2) == Patched(c, lo, r1 + r2)
  {
  }

  lemma PatchNothing<T>(c: seq<T>, lo: nat)
    requires lo <= |c|
    ensures Patched(c, lo, []) == c
  {
  }

  lemma PatchOne<T>(c: seq<T>, lo: nat, h: seq<T>, k: nat, b: T)
    requires lo + |h| <= |c| && c[lo..lo + |h|] == h && k < |h|
    ensures c[lo + k := b] == Patched(c, lo, h[k := b])
  {
    assert forall i :: lo <= i < lo + |h| ==> c[i] == c[lo..lo + |h|][i - lo];
  }

  lemma PatchSame<T>(c: seq<T>, lo: nat, h: seq<T>)
    requires lo + |h| <= |c| && c[lo..lo + |h|] == h
    ensures Patched(c, lo, h) == c
  {
    assert forall i :: lo <= i < lo + |h| ==> c[i] == c[lo..lo + |h|][i - lo];
  }

  /** What lies behind the bytes written is as before. */
  lemma PatchRest<T>(c: seq<T>, lo: nat, r: seq<T>, rest: seq<T>)
    requires lo + |r| + |rest| <= |c| && c[lo + |r|..lo + |r| + |rest|] == rest
    ensures Patched(c, lo, r)[lo + |r|..lo + |r| + |rest|] == rest
  {
  }

  lemma PatchRegion<T>(c: seq<T>, lo: nat, r: seq<T>)
    requires lo + |r| <= |c|
    ensures Patched(c, lo, r)[lo..lo + |r|] == r
    ensures Patched(c, lo, r)[..lo] == c[..lo] && Patched(c, lo, r)[lo + |r|..] == c[lo + |r|..]
  {
  }
}
