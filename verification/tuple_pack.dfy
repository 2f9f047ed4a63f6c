/**
  Tuples as bytes: predicates/vm/tuple.cpp (size, pack, load, unpack), predicates/runtime/list.hpp and
  predicates/utils/serialization.hpp.

  Numbers are stored lowest byte first, integers in two's complement; a float is its 64-bit pattern.
*/
module TuplePack {
  import opened Common
  import opened Tuples

  const PREDICATE_ID_SIZE := 1
  const LENGTH_SIZE := 4

  function KindSize(k: Kind): nat {
    match k
    case IntKind => 4
    case FloatKind => 8
    case NodeKind => 4
  }

  // ---------------------------------------------------------------- numbers

  function Power(n: nat): nat {
    if n == 0 then 1 else 0x100 * Power(n - 1)
  }

  /** The `n` low bytes of a number. */
  function Encode(v: nat, n: nat): (s: seq<Byte>)
    ensures |s| == n
  {
    if n == 0 then [] else [v % 0x100] + Encode(v / 0x100, n - 1)
  }

  function Decode(s: seq<Byte>): nat {
    if s == [] then 0 else (s[0] as int) + 0x100 * Decode(s[1..])
  }

  /** Bytes lose nothing of a number that fits. */
  lemma {:induction false} NumberRoundTrip(v: nat, n: nat)
    ensures Decode(Encode(v, n)) == v <==> v < Power(n)
  {
    if n > 0 {
      NumberRoundTrip(v / 0x100, n - 1);
      assert Encode(v, n)[1..] == Encode(v / 0x100, n - 1);
      if v >= Power(n) {
        DecodeBound(Encode(v, n));
      }
    } else {
      assert Encode(v, 0) == [];
    }
  }

  lemma {:induction false} DecodeBound(s: seq<Byte>)
    ensures Decode(s) < Power(|s|)
  {
    if s != [] {
      DecodeBound(s[1..]);
    }
  }

  /** The values of a field that its type can hold. */
  predicate Fits(a: Atom) {
    match a
    case IntAtom(x) => -0x8000_0000 <= x < 0x8000_0000
    case FloatAtom(x) => 0 <= x < 0x1_0000_0000_0000_0000
    case NodeAtom(x) => x < 0x1_0000_0000
  }

  /** The bit pattern of an atom. */
  function Bits(a: Atom): nat {
    match a
    case IntAtom(x) => x % 0x1_0000_0000
    case FloatAtom(x) => if x >= 0 then x else 0
    case NodeAtom(x) => x
  }

  function FromBits(k: Kind, v: nat): Atom {
    match k
    case IntKind => IntAtom(if v < 0x8000_0000 then v else v - 0x1_0000_0000)
    case FloatKind => FloatAtom(v)
    case NodeKind => NodeAtom(v)
  }

  function AtomBytes(a: Atom): (s: seq<Byte>)
    ensures |s| == KindSize(KindOf(a))
  {
    Encode(Bits(a), KindSize(KindOf(a)))
  }

  lemma PowersHold()
    ensures Power(4) == 0x1_0000_0000 && Power(8) == 0x1_0000_0000_0000_0000
  {
    assert Power(1) == 0x100 && Power(2) == 0x1_0000 && Power(3) == 0x100_0000;
    assert Power(5) == 0x100_0000_0000 && Power(6) == 0x1_0000_0000_0000 && Power(7) == 0x100_0000_0000_0000;
  }

  /** Packing and unpacking an atom gives the atom back. */
  lemma AtomRoundTrip(a: Atom)
    requires Fits(a)
    ensures FromBits(KindOf(a), Decode(AtomBytes(a))) == a
  {
    PowersHold();
    NumberRoundTrip(Bits(a), KindSize(KindOf(a)));
  }

  lemma {:induction false} BytesRoundTrip(s: seq<Byte>)
    ensures Encode(Decode(s), |s|) == s
  {
    if s != [] {
      BytesRoundTrip(s[1..]);
      assert Decode(s) % 0x100 == s[0] && Decode(s) / 0x100 == Decode(s[1..]);
      assert s == [s[0]] + s[1..];
    }
  }

  /** No width is to spare: all bytes that an atom of a kind can take are the bytes of such an atom. */
  lemma AtomOfBytes(k: Kind, s: seq<Byte>)
    requires |s| == KindSize(k)
    ensures var a := FromBits(k, Decode(s)); KindOf(a) == k && Fits(a) && AtomBytes(a) == s
  {
    hide Encode, Decode, Power;
    PowersHold();
    DecodeBound(s);
    BytesRoundTrip(s);
    BitsBack(k, Decode(s));
  }

  lemma BitsBack(k: Kind, v: nat)
    requires v < if k == FloatKind then 0x1_0000_0000_0000_0000 else 0x1_0000_0000
    ensures var a := FromBits(k, v); KindOf(a) == k && Fits(a) && Bits(a) == v
  {
  }

  // What the bytes are, one by one.

  lemma FourBytes(v: nat)
    ensures Encode(v, 4) == [v % 0x100, v / 0x100 % 0x100, v / 0x1_0000 % 0x100, v / 0x100_0000 % 0x100]
  {
    var a, b, c := v / 0x100, v / 0x1_0000, v / 0x100_0000;
    assert a / 0x100 == b && b / 0x100 == c;
    assert Encode(c, 1) == [c % 0x100] + Encode(c / 0x100, 0);
    assert Encode(b, 2) == [b % 0x100] + Encode(c, 1);
    assert Encode(a, 3) == [a % 0x100] + Encode(b, 2);
  }

  /** A node takes four bytes. */
  lemma NodeBytes(x: nat)
    requires x < 0x1_0000_0000
    ensures AtomBytes(NodeAtom(x)) == [x % 0x100, x / 0x100 % 0x100, x / 0x1_0000 % 0x100, x / 0x100_0000 % 0x100]
  {
    FourBytes(x);
  }

  /** An integer takes four, a negative one as its complement to 2 to the 32. */
  lemma IntBytes(x: int)
    requires -0x8000_0000 <= x < 0x8000_0000
    ensures var u := if x < 0 then 0x1_0000_0000 + x else x;
            AtomBytes(IntAtom(x)) == [u % 0x100, u / 0x100 % 0x100, u / 0x1_0000 % 0x100, u / 0x100_0000 % 0x100]
  {
    hide Encode;
    var u := if x < 0 then 0x1_0000_0000 + x else x;
    assert Bits(IntAtom(x)) == u && KindSize(KindOf(IntAtom(x))) == 4;
    FourBytes(u);
  }

  lemma HighBytes(v: nat)
    ensures Encode(v, 8) == [v % 0x100, v / 0x100 % 0x100, v / 0x1_0000 % 0x100, v / 0x100_0000 % 0x100]
                            + Encode(v / 0x1_0000_0000, 4)
  {
    var a, b, c, d := v / 0x100, v / 0x1_0000, v / 0x100_0000, v / 0x1_0000_0000;
    assert a / 0x100 == b && b / 0x100 == c && c / 0x100 == d;
    assert Encode(c, 5) == [c % 0x100] + Encode(d, 4);
    assert Encode(b, 6) == [b % 0x100] + Encode(c, 5);
    assert Encode(a, 7) == [a % 0x100] + Encode(b, 6);
  }

  /** A float takes eight. */
  lemma FloatBytes(x: Float)
    requires 0 <= x < 0x1_0000_0000_0000_0000
    ensures var h := x / 0x1_0000_0000;
            AtomBytes(FloatAtom(x)) == [x % 0x100, x / 0x100 % 0x100, x / 0x1_0000 % 0x100, x / 0x100_0000 % 0x100,
                                        h % 0x100, h / 0x100 % 0x100, h / 0x1_0000 % 0x100, h / 0x100_0000 % 0x100]
  {
    hide Encode;
    HighBytes(x);
    FourBytes(x / 0x1_0000_0000);
  }

  // ---------------------------------------------------------------- tuples

  function AtomsBytes(atoms: seq<Atom>): seq<Byte> {
    if atoms == [] then [] else AtomsBytes(atoms[..|atoms| - 1]) + AtomBytes(atoms[|atoms| - 1])
  }

  /** A list is its length and its elements. */
  function ValueBytes(v: Value): seq<Byte> {
    match v
    case One(a) => AtomBytes(a)
    case Many(atoms) => Encode(|atoms|, LENGTH_SIZE) + AtomsBytes(atoms)
  }

  function FieldsBytes(vs: seq<Value>): seq<Byte> {
    if vs == [] then [] else FieldsBytes(vs[..|vs| - 1]) + ValueBytes(vs[|vs| - 1])
  }

  function TupleBytes(pred: Byte, vs: seq<Value>): seq<Byte> {
    [pred] + FieldsBytes(vs)
  }

  /** The tuple can be stored: its atoms fit and its lists are not longer than an `unsigned int` can say. */
  ghost predicate Storable(v: Value) {
    match v
    case One(a) => Fits(a)
    case Many(atoms) => |atoms| < 0x1_0000_0000 && forall i :: 0 <= i < |atoms| ==> Fits(atoms[i])
  }

  ghost predicate AllStorable(vs: seq<Value>) {
    forall i :: 0 <= i < |vs| ==> Storable(vs[i])
  }

  /** `size_list` for lists, the size of the field type otherwise. */
  function ValueSize(v: Value, t: Type): nat {
    match t
    case AtomType(k) => KindSize(k)
    case ListType(k) => LENGTH_SIZE + KindSize(k) * (if v.Many? then |v.atoms| else 0)
  }

  lemma {:induction false} AtomsLength(atoms: seq<Atom>, k: Kind)
    requires forall i :: 0 <= i < |atoms| ==> KindOf(atoms[i]) == k
    ensures |AtomsBytes(atoms)| == KindSize(k) * |atoms|
  {
    if atoms != [] {
      var init := atoms[..|atoms| - 1];
      AtomsLength(init, k);
      assert KindSize(k) * |atoms| == KindSize(k) * |init| + KindSize(k);
    }
  }

  lemma ValueLength(v: Value, t: Type)
    requires HasType(v, t)
    ensures |ValueBytes(v)| == ValueSize(v, t) > 0
  {
    if v.Many? {
      AtomsLength(v.atoms, t.kind);
    }
  }

  /** What a field of a tuple takes: four bytes for an int or a node and eight for a float; for a list four for
      its length and then so many for each element. */
  ghost function FieldWidth(t: Type, v: Value): nat {
    match t
    case AtomType(IntKind) => 4
    case AtomType(FloatKind) => 8
    case AtomType(NodeKind) => 4
    case ListType(IntKind) => 4 + 4 * if v.Many? then |v.atoms| else 0
    case ListType(FloatKind) => 4 + 8 * if v.Many? then |v.atoms| else 0
    case ListType(NodeKind) => 4 + 4 * if v.Many? then |v.atoms| else 0
  }

  ghost function FieldsWidth(types: seq<Type>, vs: seq<Value>): nat
    requires |types| == |vs|
  {
    if vs == [] then 0 else FieldWidth(types[0], vs[0]) + FieldsWidth(types[1..], vs[1..])
  }

  /** The bytes of a tuple are one for its predicate and so many for each field. */
  lemma {:induction false} FieldsTake(vs: seq<Value>, types: seq<Type>)
    requires HasTypes(vs, types)
    ensures |FieldsBytes(vs)| == FieldsWidth(types, vs)
  {
    hide ValueBytes, KindSize;
    if vs != [] {
      FieldsSplit(vs, 1);
      assert HasType(vs[0], types[0]);
      assert FieldsBytes(vs[..1]) == ValueBytes(vs[0]) by {
        FieldsSnoc(vs, 0);
        NoFields();
        assert vs[..0] == [];
      }
      FieldTakes(vs[0], types[0]);
      forall i | 0 <= i < |vs[1..]| ensures HasType(vs[1..][i], types[1..][i]) {
        assert HasType(vs[i + 1], types[i + 1]);
      }
      FieldsTake(vs[1..], types[1..]);
    }
  }

  lemma FieldTakes(v: Value, t: Type)
    requires HasType(v, t)
    ensures |ValueBytes(v)| == FieldWidth(t, v)
  {
    ValueLength(v, t);
  }

  lemma TupleTakes(pred: Byte, vs: seq<Value>, types: seq<Type>)
    requires HasTypes(vs, types)
    ensures |TupleBytes(pred, vs)| == 1 + FieldsWidth(types, vs)
  {
    FieldsTake(vs, types);
  }

  /** What the bytes are: the predicate and then field by field, a list with its length in front. */
  lemma TupleBytesAre(pred: Byte, v: Value, vs: seq<Value>)
    ensures TupleBytes(pred, []) == [pred]
    ensures TupleBytes(pred, vs + [v]) == TupleBytes(pred, vs) + ValueBytes(v)
    ensures v.One? ==> ValueBytes(v) == AtomBytes(v.atom)
    ensures v.Many? ==> ValueBytes(Many([])) == [0, 0, 0, 0]
    ensures v.Many? && |v.atoms| < 0x1_0000_0000 ==>
              var n := |v.atoms|;
              ValueBytes(v) == [n % 0x100, n / 0x100 % 0x100, n / 0x1_0000 % 0x100, n / 0x100_0000 % 0x100]
                               + AtomsBytes(v.atoms)
  {
    assert (vs + [v])[..|vs|] == vs;
    if v.Many? {
      FourBytes(|v.atoms|);
      FourBytes(0);
    }
  }

  /** `get_storage_size` is the number of bytes that are written. */
  method GetStorageSize(vs: seq<Value>, types: seq<Type>) returns (size: nat)
    requires HasTypes(vs, types)
    ensures forall pred: Byte :: size == |TupleBytes(pred, vs)|
    ensures size == 1 + FieldsWidth(types, vs)
  {
    FieldsTake(vs, types);
    size := PREDICATE_ID_SIZE;
    for i := 0 to |vs|
      invariant size == PREDICATE_ID_SIZE + |FieldsBytes(vs[..i])|
    {
      assert HasType(vs[i], types[i]);
      ValueLength(vs[i], types[i]);
      FieldsSnoc(vs, i);
      size := size + ValueSize(vs[i], types[i]);
    }
    assert vs[..|vs|] == vs;
  }

  lemma FieldsSnoc(vs: seq<Value>, i: nat)
    requires i < |vs|
    ensures FieldsBytes(vs[..i + 1]) == FieldsBytes(vs[..i]) + ValueBytes(vs[i])
  {
    assert vs[..i + 1][..i] == vs[..i];
  }

  lemma AtomsSnoc(atoms: seq<Atom>, i: nat)
    requires i < |atoms|
    ensures AtomsBytes(atoms[..i + 1]) == AtomsBytes(atoms[..i]) + AtomBytes(atoms[i])
  {
    assert atoms[..i + 1][..i] == atoms[..i];
  }

  lemma {:induction false} FieldsSplit(vs: seq<Value>, i: nat)
    requires i <= |vs|
    ensures FieldsBytes(vs) == FieldsBytes(vs[..i]) + FieldsBytes(vs[i..])
  {
    hide ValueBytes;
    if i == |vs| {
      assert vs[..i] == vs && FieldsBytes(vs[i..]) == [];
    } else {
      var init := vs[..|vs| - 1];
      FieldsSplit(init, i);
      assert init[..i] == vs[..i] && vs[i..][..|vs[i..]| - 1] == init[i..];
    }
  }

  lemma {:induction false} AtomsSplit(atoms: seq<Atom>, i: nat)
    requires i <= |atoms|
    ensures AtomsBytes(atoms) == AtomsBytes(atoms[..i]) + AtomsBytes(atoms[i..])
  {
    if i == |atoms| {
      assert atoms[..i] == atoms && AtomsBytes(atoms[i..]) == [];
    } else {
      var init := atoms[..|atoms| - 1];
      AtomsSplit(init, i);
      assert init[..i] == atoms[..i] && atoms[i..][..|atoms[i..]| - 1] == init[i..];
    }
  }

  /** The last field is an empty list. */
  predicate EndsEmpty(vs: seq<Value>) {
    vs != [] && vs[|vs| - 1] == Many([])
  }

  // ---------------------------------------------------------------- packing

  /** `utils::pack`: a copy into the buffer that moves the cursor.  The result `ok` is false when its
      assertion fails, here and in the methods below. */
  method PackBytes(buf: array<Byte>, pos: nat, data: seq<Byte>) returns (pos': nat, ok: bool)
    modifies buf
    ensures ok <==> pos + |data| <= buf.Length
    ensures ok ==> pos' == pos + |data| && buf[..] == Patched(old(buf[..]), pos, data)
  {
    pos', ok := pos, pos + |data| <= buf.Length;
    if !ok {
      return;
    }
    for i := 0 to |data|
      invariant buf[..] == Patched(old(buf[..]), pos, data[..i])
    {
      buf[pos + i] := data[i];
      assert data[..i + 1] == data[..i] + [data[i]];
    }
    assert data[..|data|] == data;
    pos' := pos + |data|;
  }

  /** `cons::pack`: a byte must follow the length, even if the list is empty. */
  method PackList(buf: array<Byte>, pos: nat, atoms: seq<Atom>) returns (pos': nat, ok: bool)
    modifies buf
    ensures ok <==> pos + |ValueBytes(Many(atoms))| <= buf.Length && pos + LENGTH_SIZE < buf.Length
    ensures ok ==>
              pos' == pos + |ValueBytes(Many(atoms))| && buf[..] == Patched(old(buf[..]), pos, ValueBytes(Many(atoms)))
  {
    hide AtomBytes, AtomsBytes, Encode, Patched;
    var head := Encode(|atoms|, LENGTH_SIZE);
    pos', ok := PackBytes(buf, pos, head);
    ok := ok && pos' < buf.Length;
    if !ok {
      return;
    }
    ghost var mid := buf[..];
    PatchNothing(mid, pos');
    NoAtoms();
    for i := 0 to |atoms|
      invariant ok && pos' == pos + LENGTH_SIZE + |AtomsBytes(atoms[..i])| <= buf.Length
      invariant buf[..] == Patched(mid, pos + LENGTH_SIZE, AtomsBytes(atoms[..i]))
    {
      AtomsSnoc(atoms, i);
      AtomsSplit(atoms, i + 1);
      ghost var now := buf[..];
      pos', ok := PackBytes(buf, pos', AtomBytes(atoms[i]));
      if !ok {
        return;
      }
      PatchTwice(mid, pos + LENGTH_SIZE, AtomsBytes(atoms[..i]), AtomBytes(atoms[i]));
    }
    assert atoms[..|atoms|] == atoms;
    PatchTwice(old(buf[..]), pos, head, AtomsBytes(atoms));
  }

  lemma NoAtoms()
    ensures AtomsBytes([]) == []
  {
  }

  lemma NoFields()
    ensures FieldsBytes([]) == []
  {
  }

  /** There is room for a tuple's bytes, and for one more byte if its last field is an empty list. */
  predicate HasRoom(room: nat, pred: Byte, vs: seq<Value>) {
    |TupleBytes(pred, vs)| <= room && (EndsEmpty(vs) ==> |TupleBytes(pred, vs)| < room)
  }

  /** `tuple::pack`. */
  method Pack(buf: array<Byte>, pos: nat, pred: Byte, vs: seq<Value>, ghost types: seq<Type>)
    returns (pos': nat, ok: bool)
    requires HasTypes(vs, types)
    modifies buf
    ensures ok <==> pos <= buf.Length && HasRoom(buf.Length - pos, pred, vs)
    ensures ok <==> pos + 1 + FieldsWidth(types, vs) + (if EndsEmpty(vs) then 1 else 0) <= buf.Length
    ensures ok ==> pos' == pos + |TupleBytes(pred, vs)| && buf[..] == Patched(old(buf[..]), pos, TupleBytes(pred, vs))
  {
    hide ValueBytes, FieldsBytes, Patched, FieldsWidth;
    TupleTakes(pred, vs, types);
    pos', ok := PackBytes(buf, pos, [pred]);
    if !ok {
      return;
    }
    ghost var mid := buf[..];
    PatchNothing(mid, pos');
    NoFields();
    for i := 0 to |vs|
      invariant ok && pos' == pos + 1 + |FieldsBytes(vs[..i])| <= buf.Length
      invariant EndsEmpty(vs[..i]) ==> pos' < buf.Length
      invariant buf[..] == Patched(mid, pos + 1, FieldsBytes(vs[..i]))
    {
      FieldsSnoc(vs, i);
      FieldsSplit(vs, i + 1);
      RoomForList(vs, types, i);
      ghost var now := buf[..];
      match vs[i] {
        case One(a) => pos', ok := PackBytes(buf, pos', AtomBytes(a));
        case Many(atoms) => pos', ok := PackList(buf, pos', atoms);
      }
      if !ok {
        return;
      }
      PatchTwice(mid, pos + 1, FieldsBytes(vs[..i]), ValueBytes(vs[i]));
    }
    assert vs[..|vs|] == vs;
    PatchTwice(old(buf[..]), pos, [pred], FieldsBytes(vs));
  }

  /** A tuple whose only field is an empty list needs five bytes, and is not packed into a buffer of five. */
  method ExactlyFull(pred: Byte) returns (size: nat, ok: bool)
    ensures size == 5 && !ok
  {
    var vs, types := [Many([])], [ListType(IntKind)];
    assert HasType(vs[0], types[0]);
    ValueLength(vs[0], types[0]);
    FieldsSnoc(vs, 0);
    assert vs[..1] == vs && vs[..0] == [];
    size := GetStorageSize(vs, types);
    assert size == |TupleBytes(pred, vs)|;
    var buf, pos := new Byte[size], 0;
    pos, ok := Pack(buf, pos, pred, vs, types);
  }

  /** What a field takes, and that something follows it unless it is the last. */
  lemma RoomForList(vs: seq<Value>, types: seq<Type>, i: nat)
    requires HasTypes(vs, types) && i < |vs|
    ensures vs[i].One? ==> ValueBytes(vs[i]) == AtomBytes(vs[i].atom)
    ensures vs[i].Many? ==> |ValueBytes(vs[i])| >= LENGTH_SIZE
    ensures vs[i] == Many([]) ==> |ValueBytes(vs[i])| == LENGTH_SIZE
    ensures vs[i].Many? && vs[i].atoms != [] ==> LENGTH_SIZE < |ValueBytes(vs[i])|
    ensures i + 1 < |vs| ==> |FieldsBytes(vs[i + 1..])| > 0
    ensures vs[i].Many? && !EndsEmpty(vs) ==> LENGTH_SIZE < |ValueBytes(vs[i])| + |FieldsBytes(vs[i + 1..])|
  {
    assert HasType(vs[i], types[i]);
    if vs[i].Many? && vs[i].atoms != [] {
      AtomsLength(vs[i].atoms, types[i].kind);
    }
    if i + 1 < |vs| {
      var rest := vs[i + 1..];
      assert HasType(vs[|vs| - 1], types[|vs| - 1]);
      ValueLength(rest[|rest| - 1], types[|vs| - 1]);
    }
  }

  // ---------------------------------------------------------------- unpacking

  /** What has been read, and the bytes behind it. */
  datatype Parsed<T> = Parsed(value: T, rest: seq<Byte>)

  function ParseNumber(n: nat, s: seq<Byte>): Option<Parsed<nat>> {
    if |s| < n then None else Some(Parsed(Decode(s[..n]), s[n..]))
  }

  function ParseAtom(k: Kind, s: seq<Byte>): Option<Parsed<Atom>> {
    match ParseNumber(KindSize(k), s)
    case None => None
    case Some(p) => Some(Parsed(FromBits(k, p.value), p.rest))
  }

  function ParseAtoms(k: Kind, len: nat, s: seq<Byte>): Option<Parsed<seq<Atom>>> {
    if len == 0 then Some(Parsed([], s))
    else
      match ParseAtom(k, s)
      case None => None
      case Some(a) =>
        match ParseAtoms(k, len - 1, a.rest)
        case None => None
        case Some(more) => Some(Parsed([a.value] + more.value, more.rest))
  }

  function ParseValue(t: Type, s: seq<Byte>): Option<Parsed<Value>> {
    match t
    case AtomType(k) =>
      (match ParseAtom(k, s)
       case None => None
       case Some(a) => Some(Parsed(One(a.value), a.rest)))
    case ListType(k) =>
      match ParseNumber(LENGTH_SIZE, s)
      case None => None
      case Some(len) =>
        match ParseAtoms(k, len.value, len.rest)
        case None => None
        case Some(atoms) => Some(Parsed(Many(atoms.value), atoms.rest))
  }

  function ParseFields(types: seq<Type>, s: seq<Byte>): Option<Parsed<seq<Value>>> {
    if types == [] then Some(Parsed([], s))
    else
      match ParseValue(types[0], s)
      case None => None
      case Some(v) =>
        match ParseFields(types[1..], v.rest)
        case None => None
        case Some(more) => Some(Parsed([v.value] + more.value, more.rest))
  }

  datatype Tuple = Tuple(pred: Byte, fields: seq<Value>)

  /** The tuple at the front of the bytes; `None` when they run out. */
  function ParseTuple(fieldTypes: Byte -> seq<Type>, s: seq<Byte>): Option<Parsed<Tuple>> {
    if s == [] then None
    else
      match ParseFields(fieldTypes(s[0]), s[1..])
      case None => None
      case Some(fields) => Some(Parsed(Tuple(s[0], fields.value), fields.rest))
  }

  lemma ParseNumberBytes(v: nat, n: nat, rest: seq<Byte>)
    requires v < Power(n)
    ensures ParseNumber(n, Encode(v, n) + rest) == Some(Parsed(v, rest))
  {
    NumberRoundTrip(v, n);
    var s := Encode(v, n) + rest;
    assert s[..n] == Encode(v, n) && s[n..] == rest;
  }

  lemma ParseAtomBytes(a: Atom, rest: seq<Byte>)
    requires Fits(a)
    ensures ParseAtom(KindOf(a), AtomBytes(a) + rest) == Some(Parsed(a, rest))
  {
    PowersHold();
    AtomRoundTrip(a);
    ParseNumberBytes(Bits(a), KindSize(KindOf(a)), rest);
    NumberRoundTrip(Bits(a), KindSize(KindOf(a)));
  }

  lemma FirstAtom(atoms: seq<Atom>)
    requires atoms != []
    ensures AtomsBytes(atoms) == AtomBytes(atoms[0]) + AtomsBytes(atoms[1..])
  {
    AtomsSplit(atoms, 1);
    AtomsSnoc(atoms, 0);
    assert [] + AtomBytes(atoms[0]) == AtomBytes(atoms[0]);
  }

  lemma {:induction false} ParseAtomsBytes(atoms: seq<Atom>, k: Kind, rest: seq<Byte>)
    requires forall i :: 0 <= i < |atoms| ==> Fits(atoms[i]) && KindOf(atoms[i]) == k
    ensures ParseAtoms(k, |atoms|, AtomsBytes(atoms) + rest) == Some(Parsed(atoms, rest))
  {
    hide AtomsBytes, AtomBytes, ParseAtom;
    if atoms == [] {
      NoAtoms();
      assert [] + rest == rest;
    } else {
      FirstAtom(atoms);
      Associate(AtomBytes(atoms[0]), AtomsBytes(atoms[1..]), rest);
      ParseAtomBytes(atoms[0], AtomsBytes(atoms[1..]) + rest);
      ParseAtomsBytes(atoms[1..], k, rest);
      assert [atoms[0]] + atoms[1..] == atoms;
    }
  }

  lemma ParseValueBytes(v: Value, t: Type, rest: seq<Byte>)
    requires HasType(v, t) && Storable(v)
    ensures ParseValue(t, ValueBytes(v) + rest) == Some(Parsed(v, rest))
  {
    hide AtomsBytes, AtomBytes, ParseAtom, ParseAtoms, ParseNumber;
    match v {
      case One(a) => ParseAtomBytes(a, rest);
      case Many(atoms) =>
        PowersHold();
        Associate(Encode(|atoms|, LENGTH_SIZE), AtomsBytes(atoms), rest);
        ParseNumberBytes(|atoms|, LENGTH_SIZE, AtomsBytes(atoms) + rest);
        ParseAtomsBytes(atoms, t.kind, rest);
    }
  }

  lemma FirstField(vs: seq<Value>)
    requires vs != []
    ensures FieldsBytes(vs) == ValueBytes(vs[0]) + FieldsBytes(vs[1..])
  {
    FieldsSplit(vs, 1);
    FieldsSnoc(vs, 0);
    assert [] + ValueBytes(vs[0]) == ValueBytes(vs[0]);
  }

  lemma {:induction false} ParseFieldsBytes(vs: seq<Value>, types: seq<Type>, rest: seq<Byte>)
    requires HasTypes(vs, types) && AllStorable(vs)
    ensures ParseFields(types, FieldsBytes(vs) + rest) == Some(Parsed(vs, rest))
  {
    hide ValueBytes, FieldsBytes, ParseValue;
    if vs == [] {
      NoFields();
      assert [] + rest == rest;
    } else {
      FirstField(vs);
      Associate(ValueBytes(vs[0]), FieldsBytes(vs[1..]), rest);
      assert HasType(vs[0], types[0]);
      ParseValueBytes(vs[0], types[0], FieldsBytes(vs[1..]) + rest);
      forall i | 0 <= i < |vs[1..]| ensures HasType(vs[1..][i], types[1..][i]) {
        assert HasType(vs[i + 1], types[i + 1]);
      }
      ParseFieldsBytes(vs[1..], types[1..], rest);
      assert [vs[0]] + vs[1..] == vs;
    }
  }

  /** Unpacking what has been packed gives the tuple back and leaves the cursor behind it. */
  lemma TupleRoundTrip(pred: Byte, vs: seq<Value>, fieldTypes: Byte -> seq<Type>, rest: seq<Byte>)
    requires HasTypes(vs, fieldTypes(pred)) && AllStorable(vs)
    ensures ParseTuple(fieldTypes, TupleBytes(pred, vs) + rest) == Some(Parsed(Tuple(pred, vs), rest))
  {
    hide FieldsBytes, ParseFields;
    Associate([pred], FieldsBytes(vs), rest);
    assert ([pred] + (FieldsBytes(vs) + rest))[1..] == FieldsBytes(vs) + rest;
    ParseFieldsBytes(vs, fieldTypes(pred), rest);
  }

  /** `utils::unpack` of one number. */
  method UnpackNumber(buf: array<Byte>, pos: nat, n: nat) returns (v: Option<nat>, pos': nat)
    requires pos <= buf.Length
    ensures pos <= pos' <= buf.Length
    ensures match ParseNumber(n, buf[pos..])
            case None => v == None
            case Some(p) => v == Some(p.value) && p.rest == buf[pos'..]
  {
    if pos + n > buf.Length {
      return None, pos;
    }
    var data := buf[pos..pos + n];
    assert buf[pos..][..n] == data && buf[pos..][n..] == buf[pos + n..];
    v, pos' := Some(Decode(data)), pos + n;
  }

  /** `cons::unpack`: one node at a time, each behind the one before. */
  method UnpackList(buf: array<Byte>, pos: nat, k: Kind) returns (atoms: Option<seq<Atom>>, pos': nat)
    requires pos <= buf.Length
    ensures pos <= pos' <= buf.Length
    ensures match ParseValue(ListType(k), buf[pos..])
            case None => atoms == None
            case Some(p) => atoms.Some? && p.value == Many(atoms.value) && p.rest == buf[pos'..]
  {
    hide ParseNumber;
    var count;
    count, pos' := UnpackNumber(buf, pos, LENGTH_SIZE);
    if count == None {
      return None, pos';
    }
    var len: nat := count.value;
    var init := [];
    ghost var all := ParseAtoms(k, len, buf[pos'..]);
    if all.Some? {
      assert [] + all.value.value == all.value.value;
    }
    while len > 0
      invariant pos <= pos' <= buf.Length
      invariant match ParseAtoms(k, len, buf[pos'..])
                case None => all == None
                case Some(p) => all == Some(Parsed(init + p.value, p.rest))
      decreases len
    {
      var head;
      ghost var here := buf[pos'..];
      head, pos' := UnpackNumber(buf, pos', KindSize(k));
      if head == None {
        return None, pos';
      }
      ghost var more := ParseAtoms(k, len - 1, buf[pos'..]);
      if more.Some? {
        Associate(init, [FromBits(k, head.value)], more.value.value);
      }
      init := init + [FromBits(k, head.value)];
      len := len - 1;
    }
    assert init + [] == init;
    atoms := Some(init);
  }

  /** `tuple::unpack` and `tuple::load`: `None` stands for a failed assertion at the end of the buffer. */
  method Unpack(buf: array<Byte>, pos: nat, fieldTypes: Byte -> seq<Type>) returns (tuple: Option<Tuple>, pos': nat)
    requires pos <= buf.Length
    ensures pos <= pos' <= buf.Length
    ensures match ParseTuple(fieldTypes, buf[pos..])
            case None => tuple == None
            case Some(p) => tuple == Some(p.value) && p.rest == buf[pos'..]
  {
    hide ParseValue;
    if pos == buf.Length {
      return None, pos;
    }
    var pred := buf[pos];
    var types := fieldTypes(pred);
    var fields := [];
    pos' := pos + 1;
    assert buf[pos..][1..] == buf[pos'..];
    ghost var all := ParseFields(types, buf[pos'..]);
    if all.Some? {
      assert [] + all.value.value == all.value.value;
    }
    while types != []
      invariant pos < pos' <= buf.Length
      invariant match ParseFields(types, buf[pos'..])
                case None => all == None
                case Some(p) => all == Some(Parsed(fields + p.value, p.rest))
      decreases |types|
    {
      var v;
      v, pos' := UnpackValue(buf, pos', types[0]);
      if v == None {
        return None, pos';
      }
      ghost var more := ParseFields(types[1..], buf[pos'..]);
      if more.Some? {
        Associate(fields, [v.value], more.value.value);
      }
      fields := fields + [v.value];
      types := types[1..];
    }
    assert fields + [] == fields;
    tuple := Some(Tuple(pred, fields));
  }

  /** One branch of the switch in `tuple::load`. */
  method UnpackValue(buf: array<Byte>, pos: nat, t: Type) returns (v: Option<Value>, pos': nat)
    requires pos <= buf.Length
    ensures pos <= pos' <= buf.Length
    ensures match ParseValue(t, buf[pos..])
            case None => v == None
            case Some(p) => v == Some(p.value) && p.rest == buf[pos'..]
  {
    match t {
      case AtomType(k) =>
        var bits;
        bits, pos' := UnpackNumber(buf, pos, KindSize(k));
        v := if bits.Some? then Some(One(FromBits(k, bits.value))) else None;
      case ListType(k) =>
        var atoms;
        atoms, pos' := UnpackList(buf, pos, k);
        v := if atoms.Some? then Some(Many(atoms.value)) else None;
    }
  }

  /** A tuple packed into a buffer is read back from it, and both cursors move by its storage size. */
  method PackAndUnpack(buf: array<Byte>, pos: nat, pred: Byte, vs: seq<Value>, fieldTypes: Byte -> seq<Type>)
      returns (size: nat, packed: nat, ok: bool, unpacked: nat, tuple: Option<Tuple>)
    requires HasTypes(vs, fieldTypes(pred)) && AllStorable(vs)
    modifies buf
    ensures size == |TupleBytes(pred, vs)|
    ensures ok <==> pos <= buf.Length && HasRoom(buf.Length - pos, pred, vs)
    ensures ok ==> tuple == Some(Tuple(pred, vs)) && packed == unpacked == pos + size
    ensures ok ==> buf[..pos] == old(buf[..pos]) && buf[packed..] == old(buf[pos + |TupleBytes(pred, vs)|..])
  {
    hide TupleBytes, ParseTuple, Patched;
    ghost var c, bytes := buf[..], TupleBytes(pred, vs);
    size := GetStorageSize(vs, fieldTypes(pred));
    packed, ok := Pack(buf, pos, pred, vs, fieldTypes(pred));
    if !ok {
      return size, packed, false, packed, None;
    }
    PatchRegion(c, pos, bytes);
    ghost var now, rest := buf[..], c[pos + |bytes|..];
    assert now[pos..] == now[pos..pos + |bytes|] + now[pos + |bytes|..];
    assert buf[pos..] == now[pos..] == bytes + rest;
    TupleRoundTrip(pred, vs, fieldTypes, rest);
    tuple, unpacked := Unpack(buf, pos, fieldTypes);
    assert |rest| == buf.Length - packed;
    assert buf[..pos] == now[..pos] && buf[packed..] == now[packed..];
  }

  // ---------------------------------------------------------------- equality

  /** `cons::equal`. */
  function ListEqual(l1: seq<Atom>, l2: seq<Atom>): (r: bool)
    ensures r <==> l1 == l2
  {
    if l1 == [] && l2 != [] then false
    else if l1 != [] && l2 == [] then false
    else if l1 == [] && l2 == [] then true
    else if l1[0] != l2[0] then false
    else
      assert l1 == [l1[0]] + l1[1..] && l2 == [l2[0]] + l2[1..];
      ListEqual(l1[1..], l2[1..])
  }

  /** `tuple::operator==`. */
  method TupleEqual(a: Tuple, b: Tuple, ghost fieldTypes: Byte -> seq<Type>) returns (equal: bool)
    requires HasTypes(a.fields, fieldTypes(a.pred)) && HasTypes(b.fields, fieldTypes(b.pred))
    ensures equal <==> a == b
  {
    if a.pred != b.pred {
      return false;
    }
    for i := 0 to |a.fields|
      invariant a.fields[..i] == b.fields[..i]
    {
      assert HasType(a.fields[i], fieldTypes(a.pred)[i]) && HasType(b.fields[i], fieldTypes(a.pred)[i]);
      match a.fields[i] {
        case One(x) =>
          if x != b.fields[i].atom {
            return false;
          }
        case Many(atoms) =>
          if !ListEqual(atoms, b.fields[i].atoms) {
            return false;
          }
      }
    }
    assert a.fields[..|a.fields|] == a.fields && b.fields[..|a.fields|] == b.fields;
    equal := true;
  }
}
