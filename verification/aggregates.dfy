/**
  Incremental aggregates (predicates/db/agg_configuration.cpp): tuples are added to and removed from a trie,
  and each time the aggregate is generated the difference to the last one is emitted.
*/
module Aggregates {
  import opened Common
  import opened Tuples
  import opened TrieShape
  import opened TrieContents
  import opened TrieLeaves
  import opened TrieAccounts
  import opened TrieCut
  import opened Trie

  datatype AggregateType = AggFirst | AggMax | AggMin | AggSumInt | AggSumFloat | AggSumListFloat

  /** `create_new` and `remove_new`: a tuple with count 1 or -1. */
  datatype Emission = Emission(tuple: seq<Value>, count: int)

  /** A number that an aggregate ranges over; floats are opaque but ordered. */
  function Number(v: Value): int {
    match v
    case Many(_) => 0
    case One(IntAtom(x)) => x
    case One(FloatAtom(x)) => x
    case One(NodeAtom(_)) => 0
  }

  // ---------------------------------------------------------------- recomputing from scratch

  /** Entry `i` is the first one whose field is as large as any, or with `sign` -1 as small as any. */
  ghost predicate Extremal(c: seq<Entry>, field: nat, sign: int, i: nat)
    requires i < |c| && forall e :: e in c ==> field < |e.tuple|
  {
    && (forall j :: 0 <= j < |c| ==> sign * Number(c[j].tuple[field]) <= sign * Number(c[i].tuple[field]))
    && (forall j :: 0 <= j < i ==> sign * Number(c[j].tuple[field]) < sign * Number(c[i].tuple[field]))
  }

  /** The sum of a field over all tuples, each as often as it is counted. */
  function SumOf(c: seq<Entry>, field: nat): int
    requires forall e :: e in c ==> field < |e.tuple|
  {
    if c == [] then 0
    else SumOf(c[..|c| - 1], field) + c[|c| - 1].count * Number(c[|c| - 1].tuple[field])
  }

  /** Adding two floats rounds, so the order of additions matters: nothing is known about it. */
  type Plus = (Float, Float) -> Float

  const FLOAT_ZERO: Float := 0

  /** The float in a field, or at a position of the list in a field. */
  function FloatIn(v: Value, at: Option<nat>): Float {
    match v
    case One(FloatAtom(x)) => x
    case Many(atoms) =>
      if at.Some? && at.value < |atoms| && atoms[at.value].FloatAtom? then atoms[at.value].float else 0
    case _ => 0
  }

  /** All tuples, each as often as it is counted. */
  function Copies(c: seq<Entry>): seq<seq<Value>> {
    if c == [] then []
    else
      var last := c[|c| - 1];
      Copies(c[..|c| - 1]) + seq(if last.count > 0 then last.count else 0, _ => last.tuple)
  }

  /** The sum of floats from left to right. */
  function FloatSum(plus: Plus, ts: seq<seq<Value>>, field: nat, at: Option<nat>): Float {
    if ts == [] then FLOAT_ZERO
    else
      var last := ts[|ts| - 1];
      plus(FloatSum(plus, ts[..|ts| - 1], field, at), if field < |last| then FloatIn(last[field], at) else 0)
  }

  /** The sums of the lists, position by position. */
  function ListSum(plus: Plus, ts: seq<seq<Value>>, field: nat, len: nat): (atoms: seq<Atom>)
    ensures |atoms| == len
  {
    seq(len, k requires 0 <= k < len => FloatAtom(FloatSum(plus, ts, field, Some(k))))
  }

  /** Only lists of the same length can be added. */
  predicate SameLengths(typ: AggregateType, field: nat, c: seq<Entry>)
    requires forall e :: e in c ==> field < |e.tuple|
  {
    typ.AggSumListFloat? && c != [] ==> AllLong(c, field, ListLength(c[0].tuple[field]))
  }

  /** All lists that are counted have this length. */
  predicate AllLong(c: seq<Entry>, field: nat, len: nat)
    requires forall e :: e in c ==> field < |e.tuple|
  {
    forall i :: 0 <= i < |c| && c[i].count > 0 ==> ListLength(c[i].tuple[field]) == len
  }

  function ListLength(v: Value): nat {
    match v
    case One(_) => 0
    case Many(atoms) => |atoms|
  }

  /** `r` is the aggregate of the tuples in `c`. */
  ghost predicate IsAggregate(plus: Plus, typ: AggregateType, field: nat, c: seq<Entry>, r: Option<seq<Value>>)
    requires forall e :: e in c ==> field < |e.tuple|
  {
    if c == [] then r == None
    else
      match typ
      case AggFirst => r == Some(c[0].tuple)
      case AggMax => exists i :: 0 <= i < |c| && Extremal(c, field, 1, i) && r == Some(c[i].tuple)
      case AggMin => exists i :: 0 <= i < |c| && Extremal(c, field, -1, i) && r == Some(c[i].tuple)
      case AggSumInt => r == Some(c[0].tuple[field := One(IntAtom(SumOf(c, field)))])
      case AggSumFloat => r == Some(c[0].tuple[field := One(FloatAtom(FloatSum(plus, Copies(c), field, None)))])
      case AggSumListFloat =>
        r == Some(c[0].tuple[field := Many(ListSum(plus, Copies(c), field, ListLength(c[0].tuple[field])))])
  }

  // ---------------------------------------------------------------- what the aggregates are on the fields themselves

  ghost predicate IntsIn(c: seq<Entry>, field: nat) {
    forall e :: e in c ==> field < |e.tuple| && e.tuple[field].One? && e.tuple[field].atom.IntAtom?
  }

  ghost predicate FloatsIn(c: seq<Entry>, field: nat) {
    forall e :: e in c ==> field < |e.tuple| && e.tuple[field].One? && e.tuple[field].atom.FloatAtom?
  }

  ghost function IntsOf(c: seq<Entry>, field: nat): (xs: seq<int>)
    requires IntsIn(c, field)
    ensures |xs| == |c| && forall i :: 0 <= i < |c| ==> c[i] in c && xs[i] == c[i].tuple[field].atom.number
  {
    seq(|c|, i requires 0 <= i < |c| => assert c[i] in c; c[i].tuple[field].atom.number)
  }

  ghost function FloatsOf(c: seq<Entry>, field: nat): (xs: seq<Float>)
    requires FloatsIn(c, field)
    ensures |xs| == |c| && forall i :: 0 <= i < |c| ==> c[i] in c && xs[i] == c[i].tuple[field].atom.float
  {
    seq(|c|, i requires 0 <= i < |c| => assert c[i] in c; c[i].tuple[field].atom.float)
  }

  /** The largest number stands at `i` and nowhere before. */
  ghost predicate FirstLargest(xs: seq<int>, i: nat) {
    && i < |xs|
    && (forall j :: 0 <= j < |xs| ==> xs[j] <= xs[i])
    && (forall j :: 0 <= j < i ==> xs[j] < xs[i])
  }

  /** The smallest number stands at `i` and nowhere before. */
  ghost predicate FirstSmallest(xs: seq<int>, i: nat) {
    && i < |xs|
    && (forall j :: 0 <= j < |xs| ==> xs[i] <= xs[j])
    && (forall j :: 0 <= j < i ==> xs[i] < xs[j])
  }

  /** The tuple is the first with the largest (or smallest) number. */
  ghost predicate TakenFrom(c: seq<Entry>, xs: seq<int>, largest: bool, r: seq<Value>) {
    exists i :: 0 <= i < |c| && r == c[i].tuple && if largest then FirstLargest(xs, i) else FirstSmallest(xs, i)
  }

  /** The maximum and the minimum of an int field, and of a float field. */
  lemma ExtremeField(plus: Plus, c: seq<Entry>, field: nat, largest: bool, r: seq<Value>)
    requires c != [] && forall e :: e in c ==> field < |e.tuple|
    requires IsAggregate(plus, if largest then AggMax else AggMin, field, c, Some(r))
    ensures IntsIn(c, field) ==> TakenFrom(c, IntsOf(c, field), largest, r)
    ensures FloatsIn(c, field) ==> TakenFrom(c, FloatsOf(c, field), largest, r)
  {
    hide Number, Extremal, FirstLargest, FirstSmallest;
    var sign := if largest then 1 else -1;
    var i :| 0 <= i < |c| && Extremal(c, field, sign, i) && r == c[i].tuple;
    if IntsIn(c, field) {
      NumbersAre(c, field, IntsOf(c, field), true);
      ExtremeNumber(c, field, largest, i, IntsOf(c, field));
    }
    if FloatsIn(c, field) {
      NumbersAre(c, field, FloatsOf(c, field), false);
      ExtremeNumber(c, field, largest, i, FloatsOf(c, field));
    }
  }

  lemma NumbersAre(c: seq<Entry>, field: nat, xs: seq<int>, ints: bool)
    requires forall e :: e in c ==> field < |e.tuple|
    requires if ints then IntsIn(c, field) && xs == IntsOf(c, field) else FloatsIn(c, field) && xs == FloatsOf(c, field)
    ensures |xs| == |c| && forall i :: 0 <= i < |c| ==> c[i] in c && xs[i] == Number(c[i].tuple[field])
  {
  }

  lemma ExtremeNumber(c: seq<Entry>, field: nat, largest: bool, i: nat, xs: seq<int>)
    requires (forall e :: e in c ==> field < |e.tuple|) && i < |c| && |xs| == |c|
    requires forall j :: 0 <= j < |c| ==> c[j] in c && xs[j] == Number(c[j].tuple[field])
    requires Extremal(c, field, if largest then 1 else -1, i)
    ensures if largest then FirstLargest(xs, i) else FirstSmallest(xs, i)
  {
    hide Number;
  }

  /** Each counted list is as long as that of the first tuple. */
  ghost predicate EquallyLong(c: seq<Entry>, field: nat) {
    forall i :: 0 <= i < |c| && c[i].count > 0 ==>
      field < |c[0].tuple| && field < |c[i].tuple| && c[0].tuple[field].Many? && c[i].tuple[field].Many?
      && |c[i].tuple[field].atoms| == |c[0].tuple[field].atoms|
  }

  /** The assertion on the lengths of lists. */
  lemma LengthsExactly(types: seq<Type>, c: seq<Entry>, field: nat)
    requires field < |types| && forall e :: e in c ==> field < |e.tuple| && HasTypes(e.tuple, types)
    requires types[field].ListType?
    ensures SameLengths(AggSumListFloat, field, c) <==> EquallyLong(c, field)
  {
    forall i | 0 <= i < |c| ensures c[i].tuple[field].Many? {
      assert c[i] in c;
      assert HasType(c[i].tuple[field], types[field]);
    }
  }

  /** In an int field, and in a float field, the tuple is the first with the largest or smallest number. */
  ghost predicate ExtremeOf(t: Type, c: seq<Entry>, field: nat, largest: bool, r: seq<Value>) {
    && (t == AtomType(IntKind) ==> IntsIn(c, field) && TakenFrom(c, IntsOf(c, field), largest, r))
    && (t == AtomType(FloatKind) ==> FloatsIn(c, field) && TakenFrom(c, FloatsOf(c, field), largest, r))
  }

  lemma TypedIn(types: seq<Type>, c: seq<Entry>, field: nat)
    requires field < |types| && forall e :: e in c ==> HasTypes(e.tuple, types)
    ensures types[field] == AtomType(IntKind) ==> IntsIn(c, field)
    ensures types[field] == AtomType(FloatKind) ==> FloatsIn(c, field)
  {
    forall e | e in c ensures HasType(e.tuple[field], types[field]) {
    }
  }

  lemma ExtremeTyped(plus: Plus, types: seq<Type>, c: seq<Entry>, field: nat, largest: bool, r: seq<Value>)
    requires field < |types| && c != [] && forall e :: e in c ==> field < |e.tuple| && HasTypes(e.tuple, types)
    requires IsAggregate(plus, if largest then AggMax else AggMin, field, c, Some(r))
    ensures ExtremeOf(types[field], c, field, largest, r)
  {
    hide IsAggregate, HasTypes, TakenFrom;
    TypedIn(types, c, field);
    ExtremeField(plus, c, field, largest, r);
  }

  /** The sum of an int field over the references: each number as often as its tuple is counted. */
  ghost function IntTotal(c: seq<Entry>, field: nat): int
    requires IntsIn(c, field)
  {
    if c == [] then 0
    else
      assert c[0] in c && forall e :: e in c[1..] ==> e in c;
      c[0].count * c[0].tuple[field].atom.number + IntTotal(c[1..], field)
  }

  lemma {:induction false} TotalSnoc(c: seq<Entry>, e: Entry, field: nat)
    requires IntsIn(c + [e], field)
    ensures IntsIn(c, field) && e in c + [e]
    ensures IntTotal(c + [e], field) == IntTotal(c, field) + e.count * e.tuple[field].atom.number
  {
    assert forall d :: d in c ==> d in c + [e];
    assert e in c + [e];
    if c != [] {
      assert (c + [e])[1..] == c[1..] + [e];
      assert forall d :: d in c[1..] + [e] ==> d in c + [e];
      TotalSnoc(c[1..], e, field);
    }
  }

  lemma {:induction false} TotalIsSum(c: seq<Entry>, field: nat)
    requires IntsIn(c, field)
    ensures SumOf(c, field) == IntTotal(c, field)
  {
    if c != [] {
      var init, e := c[..|c| - 1], c[|c| - 1];
      assert c == init + [e];
      TotalSnoc(init, e, field);
      TotalIsSum(init, field);
    }
  }

  /** The sum of nothing is 0, and `many` more references to a tuple with the number `x` add `many` times `x`;
      a tuple that is not referenced any more can go. */
  lemma {:induction false} TotalBump(c: seq<Entry>, field: nat, t: seq<Value>, many: int)
    requires IntsIn(c, field) && field < |t| && t[field].One? && t[field].atom.IntAtom?
    ensures IntsIn(Bump(c, t, many), field)
    ensures IntTotal(Bump(c, t, many), field) == IntTotal(c, field) + many * t[field].atom.number
    ensures IntTotal([], field) == 0
  {
    var c' := Bump(c, t, many);
    if c == [] {
      assert c'[1..] == [];
    } else if c[0].tuple == t {
      assert c'[1..] == c[1..] && c'[0].count == c[0].count + many;
      assert forall d :: d in c[1..] ==> d in c;
      assert forall d :: d in c' ==> d.tuple == t || d in c[1..];
    } else {
      assert c'[1..] == Bump(c[1..], t, many);
      assert c[0] in c && forall d :: d in c[1..] ==> d in c;
      TotalBump(c[1..], field, t, many);
      assert forall d :: d in c' ==> d == c[0] || d in c'[1..];
    }
  }

  lemma {:induction false} TotalDrop(c: seq<Entry>, field: nat, t: seq<Value>)
    requires IntsIn(c, field) && Count(c, t) == 0
    ensures IntsIn(Drop(c, t), field) && IntTotal(Drop(c, t), field) == IntTotal(c, field)
  {
    var c' := Drop(c, t);
    if c != [] {
      assert c[0] in c && forall d :: d in c[1..] ==> d in c;
      if c[0].tuple != t {
        TotalDrop(c[1..], field, t);
        assert c'[1..] == Drop(c[1..], t);
        assert forall d :: d in c' ==> d == c[0] || d in c'[1..];
      }
    }
  }

  /** One more tuple in a sum of floats, and in the sum at position `at` of lists of floats. */
  lemma FloatMore(plus: Plus, ts: seq<seq<Value>>, t: seq<Value>, field: nat, at: nat)
    requires field < |t|
    ensures t[field].One? && t[field].atom.FloatAtom? ==>
              FloatSum(plus, ts + [t], field, None) == plus(FloatSum(plus, ts, field, None), t[field].atom.float)
    ensures t[field].Many? && at < |t[field].atoms| && t[field].atoms[at].FloatAtom? ==>
              FloatSum(plus, ts + [t], field, Some(at))
              == plus(FloatSum(plus, ts, field, Some(at)), t[field].atoms[at].float)
    ensures FloatSum(plus, [], field, None) == 0 && FloatSum(plus, [], field, Some(at)) == 0
  {
    var more := ts + [t];
    assert more[..|more| - 1] == ts && more[|more| - 1] == t;
  }

  /** A float sum begins with 0 and adds, for every reference to the last tuple, the float in its field. */
  lemma FloatTotal(plus: Plus, c: seq<Entry>, field: nat, t: seq<Value>, k: nat, r: seq<Value>, r': seq<Value>)
    requires forall e :: e in c + [Entry(t, k)] ==> field < |e.tuple|
    requires forall e :: e in c + [Entry(t, k + 1)] ==> field < |e.tuple|
    requires field < |t| && t[field].One? && t[field].atom.FloatAtom?
    requires IsAggregate(plus, AggSumFloat, field, c + [Entry(t, k)], Some(r))
    requires IsAggregate(plus, AggSumFloat, field, c + [Entry(t, k + 1)], Some(r'))
    ensures field < |r| == |r'| && r[field].One? && r'[field].One? && r[field].atom.FloatAtom? && r'[field].atom.FloatAtom?
    ensures r'[field].atom.float == plus(r[field].atom.float, t[field].atom.float)
    ensures c == [] && k == 0 ==> r[field].atom.float == 0
  {
    hide Copies, FloatSum;
    CopiesTwo(c, t, k);
    FirstField(c, field, t, k);
    FirstField(c, field, t, k + 1);
    FloatMore(plus, Copies(c + [Entry(t, k)]), t, field, 0);
  }

  lemma FirstField(c: seq<Entry>, field: nat, t: seq<Value>, k: int)
    requires forall e :: e in c + [Entry(t, k)] ==> field < |e.tuple|
    ensures c + [Entry(t, k)] != [] && field < |(c + [Entry(t, k)])[0].tuple|
    ensures (c + [Entry(t, k)])[0].tuple == if c == [] then t else c[0].tuple
  {
    assert (c + [Entry(t, k)])[0] in c + [Entry(t, k)];
  }

  /** The sums of lists: as many as the lists are long, and each made of the floats at its position. */
  lemma ListTotal(plus: Plus, c: seq<Entry>, field: nat, t: seq<Value>, k: nat, at: nat, r: seq<Value>, r': seq<Value>)
    requires forall e :: e in c + [Entry(t, k)] ==> field < |e.tuple|
    requires forall e :: e in c + [Entry(t, k + 1)] ==> field < |e.tuple|
    requires IsAggregate(plus, AggSumListFloat, field, c + [Entry(t, k)], Some(r))
    requires IsAggregate(plus, AggSumListFloat, field, c + [Entry(t, k + 1)], Some(r'))
    requires field < |t| && t[field].Many? && at < |t[field].atoms| && t[field].atoms[at].FloatAtom?
    requires var u := if c == [] then t else c[0].tuple;
             field < |u| && u[field].Many? && |u[field].atoms| == |t[field].atoms|
    ensures field < |r| == |r'| && r[field].Many? && r'[field].Many?
    ensures |r[field].atoms| == |r'[field].atoms| == |t[field].atoms|
    ensures r[field].atoms[at].FloatAtom? && r'[field].atoms[at].FloatAtom?
    ensures r'[field].atoms[at].float == plus(r[field].atoms[at].float, t[field].atoms[at].float)
    ensures c == [] && k == 0 ==> r[field].atoms[at].float == 0
  {
    hide Copies, FloatSum;
    CopiesTwo(c, t, k);
    FirstField(c, field, t, k);
    FirstField(c, field, t, k + 1);
    FloatMore(plus, Copies(c + [Entry(t, k)]), t, field, at);
  }

  lemma CopiesTwo(c: seq<Entry>, t: seq<Value>, k: nat)
    ensures Copies(c + [Entry(t, k + 1)]) == Copies(c + [Entry(t, k)]) + [t]
    ensures c == [] && k == 0 ==> Copies(c + [Entry(t, k)]) == []
    ensures var ts := Copies(c + [Entry(t, k + 1)]);
            ts != [] && ts[|ts| - 1] == t && ts[..|ts| - 1] == Copies(c + [Entry(t, k)])
  {
    var a, b := c + [Entry(t, k)], c + [Entry(t, k + 1)];
    assert a[..|a| - 1] == c && b[..|b| - 1] == c;
    assert seq(k + 1, _ => t) == seq(k, _ => t) + [t];
  }

  /** There is only one. */
  lemma AggregateUnique(plus: Plus, typ: AggregateType, field: nat, c: seq<Entry>, r1: Option<seq<Value>>,
      r2: Option<seq<Value>>)
    requires forall e :: e in c ==> field < |e.tuple|
    requires IsAggregate(plus, typ, field, c, r1) && IsAggregate(plus, typ, field, c, r2)
    ensures r1 == r2
  {
    if c != [] && (typ.AggMax? || typ.AggMin?) {
      var sign := if typ.AggMax? then 1 else -1;
      var i :| 0 <= i < |c| && Extremal(c, field, sign, i) && r1 == Some(c[i].tuple);
      var j :| 0 <= j < |c| && Extremal(c, field, sign, j) && r2 == Some(c[j].tuple);
      assert !(i < j) && !(j < i);
    }
  }

  // ---------------------------------------------------------------- what has been emitted

  /** How many copies of `t` the emissions add up to. */
  function Balance(emitted: seq<Emission>, t: seq<Value>): int {
    if emitted == [] then 0
    else Balance(emitted[..|emitted| - 1], t) + if emitted[|emitted| - 1].tuple == t then emitted[|emitted| - 1].count else 0
  }

  lemma BalanceSnoc(emitted: seq<Emission>, e: Emission, t: seq<Value>)
    ensures Balance(emitted + [e], t) == Balance(emitted, t) + if e.tuple == t then e.count else 0
  {
    assert (emitted + [e])[..|emitted + [e]| - 1] == emitted;
  }

  /** The emissions add up to one copy of the current aggregate and nothing else. */
  ghost predicate Balanced(emitted: seq<Emission>, current: Option<seq<Value>>) {
    forall t: seq<Value> {:trigger Balance(emitted, t)} :: Balance(emitted, t) == if current == Some(t) then 1 else 0
  }

  /** What `generate` emits when the aggregate changes from `old` to `now`. */
  function Difference(before: Option<seq<Value>>, now: Option<seq<Value>>): seq<Emission> {
    if before == None then
      if now.Some? then [Emission(now.value, 1)] else []
    else if now == None then [Emission(before.value, -1)]
    else if before != now then [Emission(before.value, -1), Emission(now.value, 1)]
    else []
  }

  lemma DifferenceBalances(emitted: seq<Emission>, before: Option<seq<Value>>, now: Option<seq<Value>>)
    requires Balanced(emitted, before)
    ensures Balanced(emitted + Difference(before, now), now)
  {
    hide Balance, Difference;
    forall t: seq<Value> ensures Balance(emitted + Difference(before, now), t) == if now == Some(t) then 1 else 0 {
      assert Balance(emitted, t) == if before == Some(t) then 1 else 0;
      DifferenceAdds(emitted, before, now, t);
    }
  }

  lemma DifferenceAdds(emitted: seq<Emission>, before: Option<seq<Value>>, now: Option<seq<Value>>, t: seq<Value>)
    ensures Balance(emitted + Difference(before, now), t) ==
            Balance(emitted, t) - (if before == Some(t) then 1 else 0) + (if now == Some(t) then 1 else 0)
  {
    hide Balance;
    var d := Difference(before, now);
    if |d| == 2 {
      BalanceSnoc(emitted, d[0], t);
      BalanceSnoc(emitted + [d[0]], d[1], t);
      assert emitted + [d[0]] + [d[1]] == emitted + d;
    } else if |d| == 1 {
      BalanceSnoc(emitted, d[0], t);
      assert emitted + [d[0]] == emitted + d;
    } else {
      assert emitted + d == emitted;
    }
  }

  // ---------------------------------------------------------------- the trie as a list of tuples

  lemma ContentsTyped(trie: TupleTrie, field: nat)
    requires trie.Valid() && field < |trie.types|
    ensures forall e :: e in trie.Contents() ==> field < |e.tuple| && HasTypes(e.tuple, trie.types)
  {
    forall e | e in trie.Contents() ensures HasTypes(e.tuple, trie.types) {
      var i :| 0 <= i < |trie.leaves| && trie.Contents()[i] == e;
      assert trie.leaves[i] in trie.recs;
      assert LeafOk(trie.nodes, trie.path, trie.types, trie.recs, trie.leaves[i]);
    }
  }

  lemma ExtremalFound(plus: Plus, typ: AggregateType, field: nat, c: seq<Entry>, sign: int, i: nat)
    requires i < |c| && forall e :: e in c ==> field < |e.tuple|
    requires (typ.AggMax? && sign == 1) || (typ.AggMin? && sign == -1)
    requires forall j :: 0 <= j < |c| ==> sign * Number(c[j].tuple[field]) <= sign * Number(c[i].tuple[field])
    requires forall j :: 0 <= j < i ==> sign * Number(c[j].tuple[field]) < sign * Number(c[i].tuple[field])
    ensures IsAggregate(plus, typ, field, c, Some(c[i].tuple))
  {
    assert Extremal(c, field, sign, i);
  }

  lemma ListsAdded(plus: Plus, field: nat, c: seq<Entry>, sums: seq<Atom>)
    requires c != [] && forall e :: e in c ==> field < |e.tuple|
    requires c[0] in c && sums == ListSum(plus, Copies(c), field, ListLength(c[0].tuple[field]))
    ensures IsAggregate(plus, AggSumListFloat, field, c, Some(c[0].tuple[field := Many(sums)]))
  {
  }

  /** No deletion is waiting to be committed. */
  ghost predicate NothingOwed(owed: map<nat, nat>) {
    forall n :: n in owed ==> owed[n] == 0
  }

  class AggConfiguration {
    const vals: TupleTrie
    const plus: Plus
    var changed: bool
    var corresponds: Option<seq<Value>>
    ghost var emitted: seq<Emission>

    ghost predicate Valid()
      reads this, vals
    {
      vals.Valid() && NothingOwed(vals.owed) && Balanced(emitted, corresponds)
    }

    constructor (types: seq<Type>, hash: Key -> nat, plus: Plus)
      ensures Valid() && !changed && corresponds == None && emitted == [] && fresh(vals)
      ensures vals.Contents() == [] && vals.types == types && this.plus == plus
    {
      var trie := new TupleTrie(types, hash);
      vals, this.plus := trie, plus;
      changed, corresponds, emitted := false, None, [];
      new;
      assert vals.owed.Keys == {};
    }

    /** `add_to_set`: `many` more references to a tuple, or `-many` less; taking away more than there are
        leaves a negative count. */
    method AddToSet(tuple: seq<Value>, many: int)
      requires Valid() && HasTypes(tuple, vals.types) && vals.types != [] && many != 0
      modifies this`changed, vals
      ensures changed
      ensures var c := old(vals.Contents());
              Valid() <==> many > 0 || !Stored(c, tuple) || -many <= Count(c, tuple)
      ensures vals.Ready(None)
      ensures var c := old(vals.Contents());
              vals.Contents() ==
                if many < 0 && !Stored(c, tuple) then c
                else if many < 0 && Count(c, tuple) == -many then Drop(Bump(c, tuple, many), tuple)
                else Bump(c, tuple, many)
    {
      hide Bump, Drop, Count, Stored, Accounted;
      changed := true;
      if many > 0 {
        var isNew := vals.InsertTuple(tuple, many);
      } else {
        RemoveFromSet(tuple, -many);
      }
    }

    /** The other branch of `add_to_set`: a deletion that is committed at once. */
    method RemoveFromSet(tuple: seq<Value>, many: int)
      requires vals.Valid() && NothingOwed(vals.owed) && HasTypes(tuple, vals.types) && vals.types != [] && many > 0
      modifies vals
      ensures vals.Ready(None) && NothingOwed(vals.owed)
      ensures var c := old(vals.Contents());
              vals.Valid() <==> !Stored(c, tuple) || many <= Count(c, tuple)
      ensures var c := old(vals.Contents());
              vals.Contents() ==
                if !Stored(c, tuple) then c
                else if Count(c, tuple) == many then Drop(Bump(c, tuple, -many), tuple)
                else Bump(c, tuple, -many)
    {
      hide Shape, LeavesOk, Bump, Drop, Count, Stored;
      ghost var c := vals.Contents();
      var deleter, asserted := vals.DeleteTuple(tuple, many);
      if deleter.toDelete {
        BumpCounts(c, tuple, -many, tuple);
        vals.CommitDelete(deleter);
      }
    }

    /** `generate_first`. */
    method GenerateFirst() returns (r: seq<Value>)
      requires vals.Valid() && vals.Contents() != []
      ensures vals.Contents() != [] && r == vals.Contents()[0].tuple
    {
      r := vals.recs[vals.leaves[0]].tuple;
    }

    /** `generate_max_int`. */
    method GenerateMax(field: nat) returns (r: seq<Value>)
      requires vals.Valid() && field < |vals.types| && vals.Contents() != []
      ensures forall e :: e in vals.Contents() ==> field < |e.tuple|
      ensures IsAggregate(plus, AggMax, field, vals.Contents(), Some(r))
      ensures ExtremeOf(vals.types[field], vals.Contents(), field, true, r)
    {
      ContentsTyped(vals, field);
      hide Shape, LeavesOk, Accounted, HasTypes, Number, IsAggregate, Extremal, ExtremeOf, Distinct, NoDup;
      ghost var c, at := vals.Contents(), 0;
      assert forall i :: 0 <= i < |c| ==> c[i] in c;
      r := vals.recs[vals.leaves[0]].tuple;
      var maxVal := Number(r[field]);
      for i := 1 to |vals.leaves|
        invariant 0 <= at < i && r == c[at].tuple && maxVal == Number(r[field])
        invariant forall j :: 0 <= j < i ==> Number(c[j].tuple[field]) <= maxVal
        invariant forall j :: 0 <= j < at ==> Number(c[j].tuple[field]) < maxVal
      {
        var other := vals.recs[vals.leaves[i]].tuple;
        assert other == c[i].tuple;
        if maxVal < Number(other[field]) {
          maxVal := Number(other[field]);
          r := other;
          at := i;
        }
      }
      ExtremalFound(plus, AggMax, field, c, 1, at);
      ExtremeTyped(plus, vals.types, c, field, true, r);
    }

    /** `generate_min_int`. */
    method GenerateMin(field: nat) returns (r: seq<Value>)
      requires vals.Valid() && field < |vals.types| && vals.Contents() != []
      ensures forall e :: e in vals.Contents() ==> field < |e.tuple|
      ensures IsAggregate(plus, AggMin, field, vals.Contents(), Some(r))
      ensures ExtremeOf(vals.types[field], vals.Contents(), field, false, r)
    {
      ContentsTyped(vals, field);
      hide Shape, LeavesOk, Accounted, HasTypes, Number, IsAggregate, Extremal, ExtremeOf, Distinct, NoDup;
      ghost var c, at := vals.Contents(), 0;
      assert forall i :: 0 <= i < |c| ==> c[i] in c;
      r := vals.recs[vals.leaves[0]].tuple;
      var minVal := Number(r[field]);
      for i := 1 to |vals.leaves|
        invariant 0 <= at < i && r == c[at].tuple && minVal == Number(r[field])
        invariant forall j :: 0 <= j < i ==> Number(c[j].tuple[field]) >= minVal
        invariant forall j :: 0 <= j < at ==> Number(c[j].tuple[field]) > minVal
      {
        var other := vals.recs[vals.leaves[i]].tuple;
        assert other == c[i].tuple;
        if minVal > Number(other[field]) {
          minVal := Number(other[field]);
          r := other;
          at := i;
        }
      }
      ExtremalFound(plus, AggMin, field, c, -1, at);
      ExtremeTyped(plus, vals.types, c, field, false, r);
    }

    /** `generate_sum_int`: each tuple as often as it is counted. */
    method GenerateSum(field: nat) returns (r: seq<Value>)
      requires vals.Valid() && field < |vals.types| && vals.Contents() != []
      ensures forall e :: e in vals.Contents() ==> field < |e.tuple|
      ensures IsAggregate(plus, AggSumInt, field, vals.Contents(), Some(r))
      ensures vals.types[field] == AtomType(IntKind) ==>
                IntsIn(vals.Contents(), field) && vals.Contents()[0] in vals.Contents()
                && r == vals.Contents()[0].tuple[field := One(IntAtom(IntTotal(vals.Contents(), field)))]
    {
      ContentsTyped(vals, field);
      hide Shape, LeavesOk, Accounted, HasTypes, Number;
      ghost var c := vals.Contents();
      assert forall i :: 0 <= i < |c| ==> c[i] in c;
      r := vals.recs[vals.leaves[0]].tuple;
      var sumVal := 0;
      for i := 0 to |vals.leaves|
        invariant sumVal == SumOf(c[..i], field)
      {
        var rec := vals.recs[vals.leaves[i]];
        SumNext(c, field, i);
        assert vals.leaves[i] in vals.leaves && Alive(vals.recs, vals.owed, vals.leaves[i]);
        sumVal := AddTimes(sumVal, rec.count, Number(rec.tuple[field]));
      }
      assert c[..|c|] == c;
      r := r[field := One(IntAtom(sumVal))];
      TypedIn(vals.types, c, field);
      if vals.types[field] == AtomType(IntKind) {
        TotalIsSum(c, field);
      }
    }

    /** The inner loop of `generate_sum_int`. */
    static method AddTimes(start: int, count: int, x: int) returns (sum: int)
      requires count >= 0
      ensures sum == start + count * x
    {
      sum := start;
      for i := 0 to count
        invariant sum == start + i * x
      {
        sum := sum + x;
      }
    }

    /** `generate_sum_float`. */
    method GenerateSumFloat(field: nat) returns (r: seq<Value>)
      requires vals.Valid() && field < |vals.types| && vals.Contents() != []
      ensures forall e :: e in vals.Contents() ==> field < |e.tuple|
      ensures IsAggregate(plus, AggSumFloat, field, vals.Contents(), Some(r))
    {
      ContentsTyped(vals, field);
      hide Shape, LeavesOk, Accounted, HasTypes, Number;
      ghost var c := vals.Contents();
      assert forall i :: 0 <= i < |c| ==> c[i] in c;
      r := vals.recs[vals.leaves[0]].tuple;
      var sumVal := FLOAT_ZERO;
      for i := 0 to |vals.leaves|
        invariant sumVal == FloatSum(plus, Copies(c[..i]), field, None)
      {
        var rec := vals.recs[vals.leaves[i]];
        assert c[i] == Entry(rec.tuple, rec.count);
        sumVal := AddFloats(sumVal, Copies(c[..i]), rec.tuple, rec.count, field);
        CopiesNext(c, i);
      }
      assert c[..|c|] == c;
      r := r[field := One(FloatAtom(sumVal))];
    }

    /** The inner loop of `generate_sum_float`. */
    method AddFloats(start: Float, ghost ts: seq<seq<Value>>, tuple: seq<Value>, count: int, field: nat)
      returns (sum: Float)
      requires field < |tuple| && start == FloatSum(plus, ts, field, None)
      ensures sum == FloatSum(plus, ts + seq(if count > 0 then count else 0, _ => tuple), field, None)
    {
      sum := start;
      var i := 0;
      assert ts + seq(0, _ => tuple) == ts;
      while i < count
        invariant 0 <= i && (i <= count || i == 0)
        invariant sum == FloatSum(plus, ts + seq(i, _ => tuple), field, None)
      {
        CopyMore(ts, tuple, i);
        sum := plus(sum, FloatIn(tuple[field], None));
        i := i + 1;
      }
    }

    /** `generate_sum_list_float`; `asserted` is false when its assertion on the lengths fails. */
    method GenerateSumList(field: nat) returns (r: seq<Value>, asserted: bool)
      requires vals.Valid() && field < |vals.types| && vals.Contents() != []
      ensures forall e :: e in vals.Contents() ==> field < |e.tuple|
      ensures asserted <==> SameLengths(AggSumListFloat, field, vals.Contents())
      ensures vals.types[field].ListType? ==> (asserted <==> EquallyLong(vals.Contents(), field))
      ensures asserted ==> IsAggregate(plus, AggSumListFloat, field, vals.Contents(), Some(r))
    {
      ContentsTyped(vals, field);
      ghost var c := vals.Contents();
      hide Shape, LeavesOk, Accounted, HasTypes, Copies, ListSum, AllLong, IsAggregate, EquallyLong;
      if vals.types[field].ListType? {
        LengthsExactly(vals.types, c, field);
      }
      r := vals.recs[vals.leaves[0]].tuple;
      assert c[0] in c && c[0].tuple == r;
      var len, lists := ListLength(r[field]), [];
      lists, asserted := CollectLists(field, len);
      if asserted {
        var sums := AddLists(lists, field, len);
        ListsAdded(plus, field, c, sums);
        r := r[field := Many(sums)];
      }
    }

    /** Each list as often as its tuple is counted. */
    method CollectLists(field: nat, len: nat) returns (lists: seq<seq<Value>>, asserted: bool)
      requires vals.Valid() && forall e :: e in vals.Contents() ==> field < |e.tuple|
      ensures asserted <==> AllLong(vals.Contents(), field, len)
      ensures asserted ==> lists == Copies(vals.Contents()) && forall t :: t in lists ==> field < |t|
    {
      ghost var c := vals.Contents();
      hide Shape, LeavesOk, Accounted, Copies, AllLong;
      NoCopies(field, len);
      lists, asserted := [], true;
      for i := 0 to |vals.leaves|
        invariant lists == Copies(c[..i]) && asserted
        invariant (forall e :: e in c[..i] ==> field < |e.tuple|) && AllLong(c[..i], field, len)
        invariant forall t :: t in lists ==> field < |t|
      {
        var rec := vals.recs[vals.leaves[i]];
        assert c[i] == Entry(rec.tuple, rec.count) && c[i] in c;
        LongNext(c, field, len, i);
        if rec.count > 0 && ListLength(rec.tuple[field]) != len {
          return [], false;
        }
        CopiesNext(c, i);
        lists := lists + seq(if rec.count > 0 then rec.count else 0, _ => rec.tuple);
      }
      assert c[..|c|] == c;
    }

    /** The two loops over positions and lists. */
    method AddLists(lists: seq<seq<Value>>, field: nat, len: nat) returns (sums: seq<Atom>)
      requires forall t :: t in lists ==> field < |t|
      ensures sums == ListSum(plus, lists, field, len)
    {
      sums := [];
      for k := 0 to len
        invariant |sums| == k && forall i :: 0 <= i < k ==> sums[i] == FloatAtom(FloatSum(plus, lists, field, Some(i)))
      {
        var sum := FLOAT_ZERO;
        for j := 0 to |lists|
          invariant sum == FloatSum(plus, lists[..j], field, Some(k))
        {
          assert lists[j] in lists && lists[..j + 1][..j] == lists[..j];
          sum := plus(sum, FloatIn(lists[j][field], Some(k)));
        }
        assert lists[..|lists|] == lists;
        sums := sums + [FloatAtom(sum)];
      }
    }

    /** `do_generate`. */
    method DoGenerate(typ: AggregateType, field: nat) returns (r: Option<seq<Value>>, asserted: bool)
      requires vals.Valid() && field < |vals.types|
      ensures forall e :: e in vals.Contents() ==> field < |e.tuple|
      ensures asserted <==> SameLengths(typ, field, vals.Contents())
      ensures asserted ==> IsAggregate(plus, typ, field, vals.Contents(), r)
    {
      ContentsTyped(vals, field);
      BasicInvariants(vals.nodes, vals.path, vals.types, vals.hash, vals.leaves, vals.recs, vals.references, vals.owed);
      if vals.references == 0 {
        return None, true;
      }
      var t;
      asserted := true;
      match typ {
        case AggFirst => t := GenerateFirst();
        case AggMax => t := GenerateMax(field);
        case AggMin => t := GenerateMin(field);
        case AggSumInt => t := GenerateSum(field);
        case AggSumFloat => t := GenerateSumFloat(field);
        case AggSumListFloat => t, asserted := GenerateSumList(field);
      }
      r := Some(t);
    }

    /** `generate`: the emissions so far add up to exactly one copy of the aggregate of the tuples that are
        stored now, or to nothing when none is.  `asserted` is false when lists to be added differ in length. */
    method Generate(typ: AggregateType, field: nat) returns (cont: seq<Emission>, asserted: bool)
      requires Valid() && field < |vals.types|
      modifies this
      ensures Valid() && emitted == old(emitted) + cont
      ensures (forall e :: e in vals.Contents() ==> field < |e.tuple|)
      ensures asserted <==> SameLengths(typ, field, vals.Contents())
      ensures asserted ==> !changed && IsAggregate(plus, typ, field, vals.Contents(), corresponds)
      ensures asserted ==> cont == Difference(old(corresponds), corresponds)
    {
      hide Shape, LeavesOk, Balanced, IsAggregate, Accounted;
      var generated;
      generated, asserted := DoGenerate(typ, field);
      if !asserted {
        return [], false;
      }
      changed := false;
      cont := [];
      if corresponds == None {
        if generated != None {
          cont := cont + [Emission(generated.value, 1)];
        }
      } else if generated == None {
        cont := cont + [Emission(corresponds.value, -1)];
      } else {
        if corresponds.value != generated.value {
          cont := cont + [Emission(corresponds.value, -1)];
          cont := cont + [Emission(generated.value, 1)];
        }
      }
      assert cont == Difference(corresponds, generated);
      DifferenceBalances(emitted, corresponds, generated);
      emitted := emitted + cont;
      corresponds := generated;
    }
  }

  lemma NoCopies(field: nat, len: nat)
    ensures Copies([]) == [] && AllLong([], field, len)
  {
  }

  lemma LongNext(c: seq<Entry>, field: nat, len: nat, i: nat)
    requires i < |c| && forall e :: e in c ==> field < |e.tuple|
    ensures (forall e :: e in c[..i + 1] ==> field < |e.tuple|) && forall e :: e in c[..i] ==> field < |e.tuple|
    ensures c[i] in c && (c[i].count > 0 && ListLength(c[i].tuple[field]) != len ==> !AllLong(c, field, len))
    ensures AllLong(c[..i], field, len) && (c[i].count > 0 ==> ListLength(c[i].tuple[field]) == len) ==>
              AllLong(c[..i + 1], field, len)
  {
    assert forall e :: e in c[..i + 1] ==> e in c;
    assert forall e :: e in c[..i] ==> e in c;
  }

  lemma CopiesNext(c: seq<Entry>, i: nat)
    requires i < |c|
    ensures Copies(c[..i + 1]) == Copies(c[..i]) + seq(if c[i].count > 0 then c[i].count else 0, _ => c[i].tuple)
  {
    assert c[..i + 1][..i] == c[..i];
  }

  lemma CopyMore(ts: seq<seq<Value>>, tuple: seq<Value>, i: nat)
    ensures var more := ts + seq(i + 1, _ => tuple);
            more != [] && more[..|more| - 1] == ts + seq(i, _ => tuple) && more[|more| - 1] == tuple
  {
  }

  lemma SumNext(c: seq<Entry>, field: nat, i: nat)
    requires i < |c| && forall e :: e in c ==> field < |e.tuple|
    ensures forall e :: e in c[..i + 1] ==> field < |e.tuple|
    ensures forall e :: e in c[..i] ==> field < |e.tuple|
    ensures SumOf(c[..i + 1], field) == SumOf(c[..i], field) + c[i].count * Number(c[i].tuple[field])
  {
    assert c[..i + 1][..i] == c[..i];
    assert forall e :: e in c[..i + 1] ==> e in c;
  }
}
