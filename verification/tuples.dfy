/**
  Tuples, their types, and their flattening into trie keys: what `trie_node::match` and
  `trie_node::insert` of predicates/db/trie.cpp make of the value on top of the value stack.
*/
module Tuples {
  import opened Common

  /** Floats are opaque.  Tries use only their identity; aggregates also an order and any addition, and
      packed tuples take the number for a bit pattern. */
  type Float = int

  datatype Kind = IntKind | FloatKind | NodeKind

  datatype Type = AtomType(kind: Kind) | ListType(kind: Kind)

  datatype Atom = IntAtom(number: int) | FloatAtom(float: Float) | NodeAtom(node: nat)

  datatype Value = One(atom: Atom) | Many(atoms: seq<Atom>)

  /** The datum of a trie node: an atom, or how a list goes on. */
  datatype Key = AtomKey(atom: Atom) | NilKey | ConsKey

  function KindOf(a: Atom): Kind {
    match a
    case IntAtom(_) => IntKind
    case FloatAtom(_) => FloatKind
    case NodeAtom(_) => NodeKind
  }

  predicate HasType(v: Value, t: Type) {
    match t
    case AtomType(k) => v.One? && KindOf(v.atom) == k
    case ListType(k) => v.Many? && forall i :: 0 <= i < |v.atoms| ==> KindOf(v.atoms[i]) == k
  }

  /** The values of a tuple of the predicate with these field types. */
  ghost predicate HasTypes(vs: seq<Value>, ts: seq<Type>) {
    |vs| == |ts| && forall i :: 0 <= i < |vs| ==> HasType(vs[i], ts[i])
  }

  // ---------------------------------------------------------------- one step on the value stack

  /** The key of the value on top of the stack. */
  function FirstKey(v: Value): Key {
    match v
    case One(a) => AtomKey(a)
    case Many(atoms) => if atoms == [] then NilKey else ConsKey
  }

  /** The value stack once that key is taken: a non-empty list leaves its head and then its tail. */
  function Popped(stack: seq<Value>): seq<Value>
    requires stack != []
  {
    match stack[0]
    case One(_) => stack[1..]
    case Many(atoms) => if atoms == [] then stack[1..] else [One(atoms[0]), Many(atoms[1..])] + stack[1..]
  }

  /** A bound on the number of steps a value takes. */
  function Weight(v: Value): nat {
    match v
    case One(_) => 1
    case Many(atoms) => 1 + 2 * |atoms|
  }

  function StackWeight(stack: seq<Value>): nat {
    if stack == [] then 0 else Weight(stack[0]) + StackWeight(stack[1..])
  }

  lemma PoppedWeight(stack: seq<Value>)
    requires stack != []
    ensures StackWeight(Popped(stack)) < StackWeight(stack)
  {
    var rest := stack[1..];
    if stack[0].Many? && stack[0].atoms != [] {
      var atoms := stack[0].atoms;
      assert Popped(stack)[1..] == [Many(atoms[1..])] + rest;
      assert Popped(stack)[1..][1..] == rest;
    }
  }

  /** The keys of one value: a list is 0, or 1 and then its head and its tail. */
  function FlatValue(v: Value): seq<Key>
    decreases if v.Many? then |v.atoms| else 0
  {
    match v
    case One(a) => [AtomKey(a)]
    case Many(atoms) =>
      if atoms == [] then [NilKey] else [ConsKey, AtomKey(atoms[0])] + FlatValue(Many(atoms[1..]))
  }

  /** The keys of all values: the path of a tuple in the trie. */
  function Flat(stack: seq<Value>): seq<Key> {
    if stack == [] then [] else FlatValue(stack[0]) + Flat(stack[1..])
  }

  lemma FlatCons(v: Value, vs: seq<Value>)
    ensures Flat([v] + vs) == FlatValue(v) + Flat(vs)
  {
    assert ([v] + vs)[1..] == vs;
  }

  lemma Regroup(a: Key, b: Key, c: seq<Key>, d: seq<Key>)
    ensures ([a, b] + c) + d == [a] + ([b] + (c + d))
  {
  }

  /** What the stack machine does is one key of the flattening at a time. */
  lemma FlatStep(stack: seq<Value>)
    requires stack != []
    ensures Flat(stack) == [FirstKey(stack[0])] + Flat(Popped(stack))
    ensures Flat(stack) != [] && Flat(stack)[0] == FirstKey(stack[0]) && Flat(stack)[1..] == Flat(Popped(stack))
  {
    var rest := stack[1..];
    if stack[0].Many? && stack[0].atoms != [] {
      var head, tail := One(stack[0].atoms[0]), Many(stack[0].atoms[1..]);
      assert Popped(stack) == [head] + ([tail] + rest);
      FlatCons(head, [tail] + rest);
      FlatCons(tail, rest);
      Regroup(ConsKey, AtomKey(head.atom), FlatValue(tail), Flat(rest));
    }
  }

  // ---------------------------------------------------------------- the types still to be read

  /** The type stack after reading key `k`; `None` when the key does not fit. */
  function Eat(types: seq<Type>, k: Key): Option<seq<Type>> {
    if types == [] then None
    else
      match types[0]
      case AtomType(kind) => if k.AtomKey? && KindOf(k.atom) == kind then Some(types[1..]) else None
      case ListType(kind) =>
        (match k
         case AtomKey(_) => None
         case NilKey => Some(types[1..])
         case ConsKey => Some([AtomType(kind)] + types))
  }

  /** What is left to read of `types` after the keys `ks`. */
  function Residual(types: seq<Type>, ks: seq<Key>): Option<seq<Type>>
    decreases |ks|
  {
    if ks == [] then Some(types)
    else
      match Eat(types, ks[0])
      case None => None
      case Some(rest) => Residual(rest, ks[1..])
  }

  lemma {:induction false} ResidualSnoc(types: seq<Type>, ks: seq<Key>, k: Key)
    requires Residual(types, ks).Some?
    ensures Residual(types, ks + [k]) == Eat(Residual(types, ks).value, k)
    decreases |ks|
  {
    if ks == [] {
      assert ks + [k] == [k] && [k][1..] == [];
    } else {
      assert (ks + [k])[1..] == ks[1..] + [k];
      ResidualSnoc(Eat(types, ks[0]).value, ks[1..], k);
    }
  }

  /** A complete word cannot be continued: no tuple's path is a proper prefix of another's. */
  lemma {:induction false} PrefixFree(types: seq<Type>, ks: seq<Key>, more: seq<Key>)
    requires Residual(types, ks) == Some([]) && more != []
    ensures Residual(types, ks + more) == None
    decreases |ks|
  {
    if ks == [] {
      assert ks + more == more;
    } else {
      assert (ks + more)[1..] == ks[1..] + more;
      PrefixFree(Eat(types, ks[0]).value, ks[1..], more);
    }
  }

  lemma PoppedTypes(stack: seq<Value>, types: seq<Type>)
    requires stack != [] && HasTypes(stack, types)
    ensures Eat(types, FirstKey(stack[0])).Some?
    ensures HasTypes(Popped(stack), Eat(types, FirstKey(stack[0])).value)
  {
    assert HasType(stack[0], types[0]);
    var stack', types' := Popped(stack), Eat(types, FirstKey(stack[0])).value;
    if stack[0].Many? && stack[0].atoms != [] {
      forall i | 0 <= i < |stack'| ensures HasType(stack'[i], types'[i]) {
        if i >= 2 {
          assert stack'[i] == stack[i - 1] && types'[i] == types[i - 1];
        }
      }
    }
  }

  /** Well-typed values spell a complete word of their types. */
  lemma {:induction false} FlatComplete(stack: seq<Value>, types: seq<Type>)
    requires HasTypes(stack, types)
    ensures Residual(types, Flat(stack)) == Some([])
    decreases StackWeight(stack)
  {
    if stack != [] {
      PoppedWeight(stack);
      PoppedTypes(stack, types);
      FlatComplete(Popped(stack), Eat(types, FirstKey(stack[0])).value);
      FlatStep(stack);
    }
  }

  /** Two tuples of one predicate with the same keys are the same tuple. */
  lemma {:induction false} FlatInjective(s1: seq<Value>, s2: seq<Value>, types: seq<Type>)
    requires HasTypes(s1, types) && HasTypes(s2, types) && Flat(s1) == Flat(s2)
    ensures s1 == s2
    decreases StackWeight(s1)
  {
    if s1 != [] && s2 != [] {
      PoppedWeight(s1);
      PoppedTypes(s1, types);
      PoppedTypes(s2, types);
      FlatStep(s1);
      FlatStep(s2);
      FlatInjective(Popped(s1), Popped(s2), Eat(types, FirstKey(s1[0])).value);
      SamePops(s1, s2, types);
    }
  }

  lemma SamePops(s1: seq<Value>, s2: seq<Value>, types: seq<Type>)
    requires s1 != [] && s2 != [] && HasTypes(s1, types) && HasTypes(s2, types)
    requires FirstKey(s1[0]) == FirstKey(s2[0]) && Popped(s1) == Popped(s2)
    ensures s1 == s2
  {
    assert HasType(s1[0], types[0]) && HasType(s2[0], types[0]);
    if s1[0].Many? && s1[0].atoms != [] {
      var p1, p2 := Popped(s1), Popped(s2);
      assert p1[0] == p2[0] && p1[1] == p2[1] && p1[2..] == s1[1..] && p2[2..] == s2[1..];
      assert s1[0].atoms == [s1[0].atoms[0]] + s1[0].atoms[1..];
      assert s2[0].atoms == [s2[0].atoms[0]] + s2[0].atoms[1..];
    }
    assert s1 == [s1[0]] + s1[1..] && s2 == [s2[0]] + s2[1..];
  }

  /** Every complete word is the path of a tuple. */
  lemma {:induction false} WordHasTuple(types: seq<Type>, ks: seq<Key>) returns (stack: seq<Value>)
    requires Residual(types, ks) == Some([])
    ensures HasTypes(stack, types) && Flat(stack) == ks
    decreases |ks|
  {
    if ks == [] {
      stack := [];
    } else {
      var rest := WordHasTuple(Eat(types, ks[0]).value, ks[1..]);
      stack := Unpop(types, ks[0], rest);
      FlatStep(stack);
      assert ks == [ks[0]] + ks[1..];
    }
  }

  /** The stack from which taking the key leaves `rest`. */
  lemma Unpop(types: seq<Type>, key: Key, rest: seq<Value>) returns (stack: seq<Value>)
    requires Eat(types, key).Some? && HasTypes(rest, Eat(types, key).value)
    ensures stack != [] && HasTypes(stack, types) && FirstKey(stack[0]) == key && Popped(stack) == rest
  {
    var types' := Eat(types, key).value;
    if types[0].ListType? && key.ConsKey? {
      assert HasType(rest[0], types'[0]) && HasType(rest[1], types'[1]);
      var v := Many([rest[0].atom] + rest[1].atoms);
      stack := [v] + rest[2..];
      assert v.atoms[1..] == rest[1].atoms;
      forall i | 0 < i < |stack| ensures HasType(stack[i], types[i]) {
        assert HasType(rest[i + 1], types'[i + 1]);
      }
    } else {
      stack := [if key.NilKey? then Many([]) else One(key.atom)] + rest;
      forall i | 0 < i < |stack| ensures HasType(stack[i], types[i]) {
        assert HasType(rest[i - 1], types'[i - 1]);
      }
    }
  }

  // ---------------------------------------------------------------- matching

  /** One field of a `match`: an exact atom, or anything of the type. */
  datatype MatchField = Exact(atom: Atom) | Any(typ: Type)

  function FieldType(f: MatchField): Type {
    match f
    case Exact(a) => AtomType(KindOf(a))
    case Any(t) => t
  }

  predicate Agrees(f: MatchField, v: Value) {
    match f
    case Exact(a) => v == One(a)
    case Any(_) => true
  }

  /** The tuple agrees with all exact fields. */
  ghost predicate Selected(m: seq<MatchField>, vs: seq<Value>)
    requires |m| == |vs|
  {
    forall i :: 0 <= i < |m| ==> Agrees(m[i], vs[i])
  }

  predicate Admits(f: MatchField, k: Key) {
    f.Any? || k == AtomKey(f.atom)
  }

  /** The match stack once a node with key `k` is accepted for its top field. */
  function Narrow(m: seq<MatchField>, k: Key): seq<MatchField>
    requires m != []
  {
    if m[0].Any? && m[0].typ.ListType? && k != NilKey then [Any(AtomType(m[0].typ.kind))] + m else m[1..]
  }

  /** The keys `ks` are accepted one after the other. */
  predicate Accepts(m: seq<MatchField>, ks: seq<Key>)
    decreases |ks|
  {
    if ks == [] then m == []
    else m != [] && Admits(m[0], ks[0]) && Accepts(Narrow(m, ks[0]), ks[1..])
  }

  function MatchTypes(m: seq<MatchField>): (ts: seq<Type>)
    ensures |ts| == |m| && forall i :: 0 <= i < |m| ==> ts[i] == FieldType(m[i])
  {
    seq(|m|, i requires 0 <= i < |m| => FieldType(m[i]))
  }

  lemma NarrowTypes(m: seq<MatchField>, k: Key)
    requires m != [] && Admits(m[0], k) && Eat(MatchTypes(m), k).Some?
    ensures MatchTypes(Narrow(m, k)) == Eat(MatchTypes(m), k).value
  {
  }

  lemma SelectedCons(f: MatchField, m: seq<MatchField>, v: Value, vs: seq<Value>)
    requires |m| == |vs|
    ensures Selected([f] + m, [v] + vs) <==> Agrees(f, v) && Selected(m, vs)
  {
    if Selected([f] + m, [v] + vs) {
      assert Agrees(([f] + m)[0], ([v] + vs)[0]);
      forall i | 0 <= i < |m| ensures Agrees(m[i], vs[i]) {
        assert Agrees(([f] + m)[i + 1], ([v] + vs)[i + 1]);
      }
    }
  }

  /** Taking the head and the tail of a list instead of the list. */
  lemma SelectedList(f: MatchField, m: seq<MatchField>, atoms: seq<Atom>, vs: seq<Value>)
    requires |m| == |vs| && atoms != [] && f.Any?
    ensures Selected([Any(AtomType(f.typ.kind))] + ([f] + m), [One(atoms[0]), Many(atoms[1..])] + vs) <==>
            Selected(m, vs)
  {
    var head, tail := One(atoms[0]), Many(atoms[1..]);
    assert [head, tail] + vs == [head] + ([tail] + vs);
    SelectedCons(Any(AtomType(f.typ.kind)), [f] + m, head, [tail] + vs);
    SelectedCons(f, m, tail, vs);
  }

  /** Taking one key keeps the question whether the tuple agrees. */
  lemma SelectedStep(m: seq<MatchField>, vs: seq<Value>)
    requires vs != [] && HasTypes(vs, MatchTypes(m))
    ensures var k := FirstKey(vs[0]);
            |Narrow(m, k)| == |Popped(vs)|
            && (Selected(m, vs) <==> Admits(m[0], k) && Selected(Narrow(m, k), Popped(vs)))
  {
    assert HasType(vs[0], MatchTypes(m)[0]);
    assert m == [m[0]] + m[1..] && vs == [vs[0]] + vs[1..];
    SelectedCons(m[0], m[1..], vs[0], vs[1..]);
    if vs[0].Many? && vs[0].atoms != [] {
      SelectedList(m[0], m[1..], vs[0].atoms, vs[1..]);
    }
  }

  /** Accepting the path of a tuple key by key is agreeing with its fields. */
  lemma {:induction false} AcceptsIsSelected(m: seq<MatchField>, vs: seq<Value>)
    requires HasTypes(vs, MatchTypes(m))
    ensures Accepts(m, Flat(vs)) <==> Selected(m, vs)
    decreases StackWeight(vs)
  {
    if vs != [] {
      var k := FirstKey(vs[0]);
      PoppedWeight(vs);
      PoppedTypes(vs, MatchTypes(m));
      SelectedStep(m, vs);
      FlatStep(vs);
      if Admits(m[0], k) {
        NarrowTypes(m, k);
        AcceptsIsSelected(Narrow(m, k), Popped(vs));
      }
    }
  }
}
