/**
  Relinking byte code (predicates/vm/instr.cpp): what `instr_print` does to the ids of one instruction,
  and why doing it once to each instruction is a renaming of the instruction stream.
*/
module Relinker {
  import opened Common
  import opened Bytecode

  datatype FieldType = IntField | FloatField | NodeField | IntList | FloatList | NodeList

  /** The field types of each predicate of a program. */
  type Types = nat -> seq<FieldType>

  /** The linker id of each predicate and of each rule. */
  datatype Links = Links(pred: nat -> nat, rule: nat -> nat)

  // ---------------------------------------------------------------- facts in the code

  /** A list: elements behind a 1, ended by another byte. */
  function ListSize(elem: nat, s: Code): Option<nat>
    decreases |s|
  {
    if s == [] then None
    else if s[0] != 1 then Some(1)
    else if 1 + elem > |s| then None
    else Plus(1 + elem, ListSize(elem, s[1 + elem..]))
  }

  function FieldSize(t: FieldType, s: Code): Option<nat> {
    match t
    case IntField => Some(INT_SIZE)
    case FloatField => Some(FLOAT_SIZE)
    case NodeField => Some(NODE_SIZE)
    case IntList => ListSize(INT_SIZE, s)
    case FloatList => ListSize(FLOAT_SIZE, s)
    case NodeList => ListSize(NODE_SIZE, s)
  }

  function FieldsSize(ts: seq<FieldType>, s: Code): Option<nat> {
    if ts == [] then Some(0)
    else
      match FieldSize(ts[0], s)
      case None => None
      case Some(size) => if size > |s| then None else Plus(size, FieldsSize(ts[1..], s[size..]))
  }

  /** `predicate_get`: the low seven bits. */
  function PredicateId(b: Byte): nat {
    if b < 0x80 then b else b - 0x80
  }

  /** The bytes of a fact's fields behind its predicate; `None` when they run past the end. */
  function FactSize(types: Types, s: Code): (size: Option<nat>)
    ensures size.Some? ==> size.value < |s|
  {
    if s == [] then None
    else
      match FieldsSize(types(PredicateId(s[0])), s[1..])
      case None => None
      case Some(size) => if 1 + size > |s| then None else Some(size)
  }

  // ---------------------------------------------------------------- decoding

  datatype Fact = Fact(pred: nat, fields: Code)

  /** An instruction, with the ids that it names taken out of its bytes. */
  datatype Instr =
    | Plain(bytes: Code)
    | OnPredicate(op: Byte, pred: nat, rest: Code)
    | RuleId(id: nat)
    | Axioms(jump: Code, facts: seq<Fact>)

  function DecodeFacts(types: Types, s: Code): Option<seq<Fact>>
    decreases |s|
  {
    if s == [] then Some([])
    else
      match FactSize(types, s)
      case None => None
      case Some(size) =>
        match DecodeFacts(types, s[1 + size..])
        case None => None
        case Some(facts) => Some([Fact(PredicateId(s[0]), s[1..1 + size])] + facts)
  }

  predicate NamesPredicate(op: Byte) {
    op == ALLOC || op == ITER || op == DELETE
  }

  /** The instruction in the bytes `s`, which are all of it. */
  function DecodeOne(types: Types, s: Code): Option<Instr> {
    if Advance(s) != Some(|s|) then None
    else if NamesPredicate(s[0]) && |s| >= 2 then Some(OnPredicate(s[0], PredicateId(s[1]), s[2..]))
    else if s[0] == RULE && |s| == 5 then Some(RuleId(Word(s, 1)))
    else if s[0] == NEW_AXIOMS then
      if |s| < NEW_AXIOMS_BASE then None
      else match DecodeFacts(types, s[NEW_AXIOMS_BASE..])
           case None => None
           case Some(facts) => Some(Axioms(s[..NEW_AXIOMS_BASE], facts))
    else Some(Plain(s))
  }

  /** The stream of instructions in the bytes `s`, read one after the other. */
  function Decode(types: Types, s: Code): Option<seq<Instr>>
    decreases |s|
  {
    if s == [] then Some([])
    else
      match Advance(s)
      case None => None
      case Some(n) =>
        if n == 0 || n > |s| then None
        else
          match DecodeOne(types, s[..n])
          case None => None
          case Some(i) =>
            match Decode(types, s[n..])
            case None => None
            case Some(rest) => Some([i] + rest)
  }

  // ---------------------------------------------------------------- renaming

  function LowByte(id: nat): Byte {
    id % 0x100
  }

  /** Where the loop over facts goes on: fields that run past the end are its last. */
  function FactEnd(types: Types, s: Code): (end: nat)
    requires s != []
    ensures 0 < end <= |s| && (FactSize(types, s).None? ==> end == |s|)
  {
    match FactSize(types, s)
    case None => |s|
    case Some(size) => 1 + size
  }

  function RenameFacts(types: Types, links: Links, s: Code): (r: Code)
    ensures |r| == |s|
    decreases |s|
  {
    if s == [] then []
    else
      var end := FactEnd(types, s);
      [LowByte(links.pred(PredicateId(s[0])))] + s[1..end] + RenameFacts(types, links, s[end..])
  }

  /** What the walk writes into one instruction: a predicate byte, the low byte of a rule id, or the
      predicate bytes of facts. */
  function RenameOne(types: Types, links: Links, s: Code): (r: Code)
    ensures |r| == |s|
  {
    if |s| >= 2 && NamesPredicate(s[0]) then s[1 := LowByte(links.pred(PredicateId(s[1])))]
    else if |s| >= 5 && s[0] == RULE then s[1 := LowByte(links.rule(Word(s, 1)))]
    else if |s| >= NEW_AXIOMS_BASE && s[0] == NEW_AXIOMS then
      s[..NEW_AXIOMS_BASE] + RenameFacts(types, links, s[NEW_AXIOMS_BASE..])
    else s
  }

  /** The bytes `s`, renamed from one instruction to the next. */
  function Rename(types: Types, links: Links, s: Code): (r: Code)
    ensures |r| == |s|
    decreases |s|
  {
    match Advance(s)
    case None => s
    case Some(n) =>
      if n == 0 || n > |s| then s
      else RenameOne(types, links, s[..n]) + Rename(types, links, s[n..])
  }

  /** The addresses of the instructions in `s`, whose first byte has the address `base`. */
  function Starts(s: Code, base: nat): seq<nat>
    decreases |s|
  {
    match Advance(s)
    case None => []
    case Some(n) => if n == 0 || n > |s| then [] else [base] + Starts(s[n..], base + n)
  }

  function RenamedFacts(links: Links, facts: seq<Fact>): seq<Fact> {
    if facts == [] then []
    else [Fact(links.pred(facts[0].pred), facts[0].fields)] + RenamedFacts(links, facts[1..])
  }

  /** Renaming as one would define it on instructions. */
  function RenameInstr(links: Links, i: Instr): Instr {
    match i
    case Plain(_) => i
    case OnPredicate(op, pred, rest) => OnPredicate(op, links.pred(pred), rest)
    case RuleId(id) => RuleId(links.rule(id))
    case Axioms(jump, facts) => Axioms(jump, RenamedFacts(links, facts))
  }

  /** The linker ids fit where they are written: seven bits for a predicate, and the low byte of a rule id. */
  ghost predicate Fits(links: Links, i: Instr) {
    match i
    case Plain(_) => true
    case OnPredicate(_, pred, _) => links.pred(pred) < 0x80
    case RuleId(id) => id / 0x100 == links.rule(id) / 0x100
    case Axioms(_, facts) => forall k :: 0 <= k < |facts| ==> links.pred(facts[k].pred) < 0x80
  }

  /** In the linked program a predicate has the same fields under its new id. */
  ghost predicate SameFields(types: Types, types': Types, links: Links) {
    forall p: nat {:trigger types(p)} :: p < 0x80 ==> types'(links.pred(p)) == types(p)
  }

  function RenameInstrs(links: Links, code: seq<Instr>): (r: seq<Instr>)
    ensures |r| == |code|
  {
    if code == [] then [] else [RenameInstr(links, code[0])] + RenameInstrs(links, code[1..])
  }

  // ---------------------------------------------------------------- the bytes of a fact

  lemma {:induction false} ListAlike(elem: nat, a: Code, b: Code, n: nat)
    requires n <= |a| && n <= |b| && b[..n] == a[..n] && ListSize(elem, a) == Some(n)
    ensures ListSize(elem, b) == Some(n)
    decreases |a|
  {
    assert b[0] == b[..n][0] == a[0];
    if a[0] == 1 {
      PrefixTail(a, b, n, 1 + elem);
      ListAlike(elem, a[1 + elem..], b[1 + elem..], n - 1 - elem);
    }
  }

  lemma FieldAlike(t: FieldType, a: Code, b: Code, n: nat)
    requires n <= |a| && n <= |b| && b[..n] == a[..n] && FieldSize(t, a) == Some(n)
    ensures FieldSize(t, b) == Some(n)
  {
    match t
    case IntList => ListAlike(INT_SIZE, a, b, n);
    case FloatList => ListAlike(FLOAT_SIZE, a, b, n);
    case NodeList => ListAlike(NODE_SIZE, a, b, n);
    case _ =>
  }

  lemma {:induction false} FieldsAlike(ts: seq<FieldType>, a: Code, b: Code, n: nat)
    requires n <= |a| && n <= |b| && b[..n] == a[..n] && FieldsSize(ts, a) == Some(n)
    ensures FieldsSize(ts, b) == Some(n)
  {
    if ts != [] {
      var size := FieldSize(ts[0], a).value;
      assert b[..size] == b[..n][..size] == a[..size];
      FieldAlike(ts[0], a, b, size);
      PrefixTail(a, b, n, size);
      FieldsAlike(ts[1..], a[size..], b[size..], n - size);
    }
  }

  ghost predicate FactsFit(links: Links, facts: seq<Fact>) {
    forall k :: 0 <= k < |facts| ==> links.pred(facts[k].pred) < 0x80
  }

  /** Only its own bytes matter for the size of a fact. */
  lemma FactAlike(types: Types, ts: seq<FieldType>, b: Byte, f: Code, rest: Code, rest': Code)
    requires FieldsSize(ts, f + rest) == Some(|f|) && types(PredicateId(b)) == ts
    ensures FactSize(types, [b] + f + rest') == Some(|f|)
  {
    assert ([b] + f + rest')[1..] == f + rest';
    assert (f + rest)[..|f|] == f == (f + rest')[..|f|];
    FieldsAlike(ts, f + rest, f + rest', |f|);
  }

  lemma FactFields(types: Types, b: Byte, f: Code, rest: Code)
    requires FactSize(types, [b] + f + rest) == Some(|f|)
    ensures FieldsSize(types(PredicateId(b)), f + rest) == Some(|f|)
  {
    assert ([b] + f + rest)[1..] == f + rest;
  }

  /** The first fact and what follows it. */
  lemma SplitFact(types: Types, s: Code, facts: seq<Fact>) returns (f: Code, rest: Code)
    requires s != [] && DecodeFacts(types, s) == Some(facts)
    ensures s == [s[0]] + f + rest && FactSize(types, s) == Some(|f|)
    ensures facts != [] && facts[0] == Fact(PredicateId(s[0]), f) && DecodeFacts(types, rest) == Some(facts[1..])
  {
    var size := FactSize(types, s).value;
    f, rest := s[1..1 + size], s[1 + size..];
  }

  lemma DecodeFirst(types: Types, b: Byte, f: Code, rest: Code)
    requires FactSize(types, [b] + f + rest) == Some(|f|)
    ensures var more := DecodeFacts(types, rest);
            DecodeFacts(types, [b] + f + rest) == if more.None? then None else Some([Fact(PredicateId(b), f)] + more.value)
  {
    var s := [b] + f + rest;
    assert s[1..1 + |f|] == f && s[1 + |f|..] == rest;
  }

  lemma RenameFirst(types: Types, links: Links, b: Byte, f: Code, rest: Code)
    requires FactSize(types, [b] + f + rest) == Some(|f|)
    ensures RenameFacts(types, links, [b] + f + rest) ==
            [LowByte(links.pred(PredicateId(b)))] + f + RenameFacts(types, links, rest)
  {
    var s := [b] + f + rest;
    assert s[1..1 + |f|] == f && s[1 + |f|..] == rest;
  }

  lemma DecodedPred(types: Types, s: Code)
    requires s != [] && DecodeFacts(types, s).Some?
    ensures DecodeFacts(types, s).value != [] && DecodeFacts(types, s).value[0].pred < 0x80
  {
  }

  lemma FitFirst(links: Links, facts: seq<Fact>)
    requires facts != []
    ensures FactsFit(links, facts) <==> links.pred(facts[0].pred) < 0x80 && FactsFit(links, facts[1..])
  {
    assert forall k :: 0 < k < |facts| ==> facts[k] == facts[1..][k - 1];
  }

  /** Facts read after the renaming are the facts with their predicates renamed, exactly when the ids fit. */
  lemma {:induction false} FactsRenamed(types: Types, types': Types, links: Links, s: Code, facts: seq<Fact>)
    requires DecodeFacts(types, s) == Some(facts) && SameFields(types, types', links)
    ensures DecodeFacts(types', RenameFacts(types, links, s)) == Some(RenamedFacts(links, facts)) <==>
            FactsFit(links, facts)
    decreases |s|
  {
    if s != [] {
      var f, rest := SplitFact(types, s, facts);
      FactsRenamed(types, types', links, rest, facts[1..]);
      OneFactRenamed(types, types', links, s[0], f, rest, facts);
    }
  }

  lemma OneFactRenamed(types: Types, types': Types, links: Links, b: Byte, f: Code, rest: Code, facts: seq<Fact>)
    requires FactSize(types, [b] + f + rest) == Some(|f|) && SameFields(types, types', links)
    requires facts != [] && facts[0] == Fact(PredicateId(b), f)
    requires DecodeFacts(types', RenameFacts(types, links, rest)) == Some(RenamedFacts(links, facts[1..])) <==>
             FactsFit(links, facts[1..])
    ensures DecodeFacts(types', RenameFacts(types, links, [b] + f + rest)) == Some(RenamedFacts(links, facts)) <==>
            FactsFit(links, facts)
  {
    var b', rest' := LowByte(links.pred(PredicateId(b))), RenameFacts(types, links, rest);
    RenameFirst(types, links, b, f, rest);
    FitFirst(links, facts);
    if links.pred(PredicateId(b)) < 0x80 {
      FittingFact(types, types', links, b, f, rest, rest');
      ConsSame(Fact(links.pred(PredicateId(b)), f), DecodeFacts(types', rest'), RenamedFacts(links, facts[1..]));
    } else if DecodeFacts(types', [b'] + f + rest').Some? {
      DecodedPred(types', [b'] + f + rest');
    }
  }

  lemma FittingFact(types: Types, types': Types, links: Links, b: Byte, f: Code, rest: Code, rest': Code)
    requires FactSize(types, [b] + f + rest) == Some(|f|) && SameFields(types, types', links)
    requires links.pred(PredicateId(b)) < 0x80
    ensures var more := DecodeFacts(types', rest');
            DecodeFacts(types', [LowByte(links.pred(PredicateId(b)))] + f + rest')
            == if more.None? then None else Some([Fact(links.pred(PredicateId(b)), f)] + more.value)
  {
    var p := PredicateId(b);
    assert types'(links.pred(p)) == types(p);
    FactFields(types, b, f, rest);
    FactAlike(types', types(p), LowByte(links.pred(p)), f, rest, rest');
    DecodeFirst(types', LowByte(links.pred(p)), f, rest');
  }

  lemma ConsSame(x: Fact, a: Option<seq<Fact>>, b: seq<Fact>)
    ensures a.Some? ==> ([x] + a.value == [x] + b <==> a.value == b)
  {
    if a.Some? && [x] + a.value == [x] + b {
      assert a.value == ([x] + a.value)[1..] && b == ([x] + b)[1..];
    }
  }

  // ---------------------------------------------------------------- one instruction

  lemma RenameOneAlike(types: Types, links: Links, s: Code)
    requires s != []
    ensures Alike(s, RenameOne(types, links, s), |s|)
  {
  }

  /** A word whose low byte is replaced. */
  lemma WordLow(s: Code, b: Byte)
    requires |s| >= 5
    ensures Word(s[1 := b], 1) == Word(s, 1) - Word(s, 1) % 0x100 + b
    ensures Word(s, 1) / 0x100 == Word(s[1 := b], 1) / 0x100
  {
    var high := (s[2] as int) + 0x100 * (s[3] as int) + 0x1_0000 * (s[4] as int);
    assert Word(s, 1) == 0x100 * high + s[1];
    assert Word(s[1 := b], 1) == 0x100 * high + b;
  }

  lemma RuleRenamed(s: Code, id: nat)
    requires |s| >= 5
    ensures Word(s[1 := LowByte(id)], 1) == id <==> Word(s, 1) / 0x100 == id / 0x100
  {
    WordLow(s, LowByte(id));
  }

  /** Decoding a renamed instruction gives the instruction with its ids renamed, exactly when they fit. */
  lemma OneRenamed(types: Types, types': Types, links: Links, s: Code, i: Instr)
    requires DecodeOne(types, s) == Some(i) && SameFields(types, types', links)
    ensures Advance(RenameOne(types, links, s)) == Some(|s|)
    ensures DecodeOne(types', RenameOne(types, links, s)) == Some(RenameInstr(links, i)) <==> Fits(links, i)
  {
    var s' := RenameOne(types, links, s);
    RenameOneAlike(types, links, s);
    AdvanceAlike(s, s', |s|);
    match i {
      case Plain(_) =>
      case OnPredicate(_, _, _) =>
        assert s'[2..] == s[2..];
      case RuleId(id) =>
        RuleRenamed(s, links.rule(id));
      case Axioms(jump, facts) =>
        assert s'[..NEW_AXIOMS_BASE] == s[..NEW_AXIOMS_BASE];
        assert s'[NEW_AXIOMS_BASE..] == RenameFacts(types, links, s[NEW_AXIOMS_BASE..]);
        FactsRenamed(types, types', links, s[NEW_AXIOMS_BASE..], facts);
        assert RenameInstr(links, i) == Axioms(jump, RenamedFacts(links, facts));
    }
  }

  // ---------------------------------------------------------------- the stream of instructions

  /** `h` is one instruction. */
  ghost predicate IsOne(types: Types, h: Code) {
    h != [] && DecodeOne(types, h).Some?
  }

  ghost predicate Whole(h: Code) {
    h != [] && Advance(h) == Some(|h|) && (h[0] == NEW_AXIOMS ==> |h| >= NEW_AXIOMS_BASE)
  }

  lemma OneIsWhole(types: Types, h: Code)
    requires IsOne(types, h)
    ensures Whole(h)
  {
  }

  lemma AdvanceOver(types: Types, h: Code, t: Code)
    requires IsOne(types, h)
    ensures Advance(h + t) == Some(|h|) && (h + t)[..|h|] == h && (h + t)[|h|..] == t
  {
    AdvanceAlike(h, h + t, |h|);
  }

  /** An instruction in front of a stream. */
  lemma Head(types: Types, links: Links, h: Code, t: Code, base: nat)
    requires IsOne(types, h)
    ensures Starts(h + t, base) == [base] + Starts(t, base + |h|)
    ensures Rename(types, links, h + t) == RenameOne(types, links, h) + Rename(types, links, t)
  {
    hide Advance, DecodeOne, RenameOne;
    AdvanceOver(types, h, t);
  }

  lemma DecodeHead(types: Types, h: Code, t: Code)
    requires Whole(h)
    ensures var i, more := DecodeOne(types, h), Decode(types, t);
            Decode(types, h + t) == if i.Some? && more.Some? then Some([i.value] + more.value) else None
  {
    AdvanceAlike(h, h + t, |h|);
    assert (h + t)[..|h|] == h && (h + t)[|h|..] == t;
  }

  lemma SplitHead(types: Types, s: Code, code: seq<Instr>) returns (h: Code, t: Code)
    requires s != [] && Decode(types, s) == Some(code)
    ensures s == h + t && IsOne(types, h) && code != [] && |t| < |s|
    ensures DecodeOne(types, h) == Some(code[0]) && Decode(types, t) == Some(code[1..])
  {
    var n := Advance(s).value;
    h, t := s[..n], s[n..];
  }

  lemma NothingToRead()
    ensures Advance([]) == None
  {
  }

  ghost predicate AllFit(links: Links, code: seq<Instr>) {
    forall k :: 0 <= k < |code| ==> Fits(links, code[k])
  }

  lemma AllFitFirst(links: Links, code: seq<Instr>)
    requires code != []
    ensures AllFit(links, code) <==> Fits(links, code[0]) && AllFit(links, code[1..])
  {
    assert forall k :: 0 < k < |code| ==> code[k] == code[1..][k - 1];
  }

  /** Relinking is renaming: the renamed bytes decode to the original stream with every predicate and rule
      id replaced once by its linker id, exactly when all linker ids fit; and each instruction stays where
      it was. */
  lemma {:induction false} RelinkingIsRenaming(types: Types, types': Types, links: Links, s: Code, code: seq<Instr>,
      base: nat)
    requires Decode(types, s) == Some(code) && SameFields(types, types', links)
    ensures Decode(types', Rename(types, links, s)) == Some(RenameInstrs(links, code)) <==> AllFit(links, code)
    ensures Starts(Rename(types, links, s), base) == Starts(s, base)
    decreases |s|
  {
    hide Advance, DecodeOne, RenameOne;
    if s == [] {
      NothingToRead();
    } else {
      var h, t := SplitHead(types, s, code);
      RelinkingIsRenaming(types, types', links, t, code[1..], base + |h|);
      HeadRenamed(types, types', links, h, t, code, base);
    }
  }

  lemma HeadRenamed(types: Types, types': Types, links: Links, h: Code, t: Code, code: seq<Instr>, base: nat)
    requires IsOne(types, h) && code != [] && DecodeOne(types, h) == Some(code[0]) && SameFields(types, types', links)
    requires Decode(types', Rename(types, links, t)) == Some(RenameInstrs(links, code[1..])) <==>
             AllFit(links, code[1..])
    requires Starts(Rename(types, links, t), base + |h|) == Starts(t, base + |h|)
    ensures Decode(types', Rename(types, links, h + t)) == Some(RenameInstrs(links, code)) <==> AllFit(links, code)
    ensures Starts(Rename(types, links, h + t), base) == Starts(h + t, base)
  {
    hide Advance, DecodeOne, Decode, RenameOne, Rename, Starts, Fits;
    RenameOneAlike(types, links, h);
    OneIsWhole(types, h);
    var h', t' := RenameOne(types, links, h), Rename(types, links, t);
    Head(types, links, h, t, base);
    OneRenamed(types, types', links, h, code[0]);
    AllFitFirst(links, code);
    DecodeBoth(types', h', t', RenameInstr(links, code[0]), RenameInstrs(links, code[1..]));
    StartsHead(h', t', base);
  }

  lemma DecodeBoth(types: Types, h: Code, t: Code, i: Instr, more: seq<Instr>)
    requires Whole(h)
    ensures Decode(types, h + t) == Some([i] + more) <==>
            DecodeOne(types, h) == Some(i) && Decode(types, t) == Some(more)
  {
    DecodeHead(types, h, t);
    if DecodeOne(types, h).Some? {
      ConsBoth(DecodeOne(types, h).value, Decode(types, t), i, more);
    }
  }

  lemma StartsHead(h: Code, t: Code, base: nat)
    requires Whole(h)
    ensures Starts(h + t, base) == [base] + Starts(t, base + |h|)
  {
    hide Advance;
    AdvanceAlike(h, h + t, |h|);
    assert (h + t)[|h|..] == t;
  }

  lemma ConsBoth<T>(x: T, a: Option<seq<T>>, y: T, b: seq<T>)
    ensures a.Some? ==> ([x] + a.value == [y] + b <==> x == y && a.value == b)
  {
    if a.Some? && [x] + a.value == [y] + b {
      assert x == ([x] + a.value)[0] && y == ([y] + b)[0];
      assert a.value == ([x] + a.value)[1..] && b == ([y] + b)[1..];
    }
  }

  /** Two streams one after the other. */
  lemma {:induction false} StreamCat(types: Types, links: Links, a: Code, b: Code, base: nat)
    requires Decode(types, a).Some? && Decode(types, b).Some?
    ensures Decode(types, a + b) == Some(Decode(types, a).value + Decode(types, b).value)
    ensures Rename(types, links, a + b) == Rename(types, links, a) + Rename(types, links, b)
    ensures Starts(a + b, base) == Starts(a, base) + Starts(b, base + |a|)
    decreases |a|
  {
    hide Decode, Rename, Starts;
    if a == [] {
      CatNothing(types, links, b, base);
    } else {
      var code := Decode(types, a).value;
      var h, t := SplitHead(types, a, code);
      StreamCat(types, links, t, b, base + |h|);
      assert a + b == h + (t + b);
      CatHead(types, links, h, t, b, base);
    }
  }

  lemma CatNothing(types: Types, links: Links, b: Code, base: nat)
    requires Decode(types, b).Some?
    ensures Decode(types, []) == Some([]) && Decode(types, [] + b) == Some([] + Decode(types, b).value)
    ensures Rename(types, links, [] + b) == Rename(types, links, []) + Rename(types, links, b)
    ensures Starts([] + b, base) == Starts([], base) + Starts(b, base)
  {
    hide Advance, DecodeOne, RenameOne;
    NothingToRead();
    NothingInFront(b);
    NothingInFront(Decode(types, b).value);
    NothingInFront(Rename(types, links, b));
    NothingInFront(Starts(b, base));
  }

  lemma CatHead(types: Types, links: Links, h: Code, t: Code, b: Code, base: nat)
    requires IsOne(types, h) && Decode(types, t).Some? && Decode(types, b).Some?
    requires Decode(types, t + b) == Some(Decode(types, t).value + Decode(types, b).value)
    requires Rename(types, links, t + b) == Rename(types, links, t) + Rename(types, links, b)
    requires Starts(t + b, base + |h|) == Starts(t, base + |h|) + Starts(b, base + |h| + |t|)
    ensures Decode(types, h + t).Some?
    ensures Decode(types, h + (t + b)) == Some(Decode(types, h + t).value + Decode(types, b).value)
    ensures Rename(types, links, h + (t + b)) == Rename(types, links, h + t) + Rename(types, links, b)
    ensures Starts(h + (t + b), base) == Starts(h + t, base) + Starts(b, base + |h| + |t|)
  {
    hide Advance, DecodeOne, RenameOne, Decode, Rename, Starts;
    OneIsWhole(types, h);
    DecodeHead(types, h, t);
    DecodeHead(types, h, t + b);
    Head(types, links, h, t, base);
    Head(types, links, h, t + b, base);
    Associate([DecodeOne(types, h).value], Decode(types, t).value, Decode(types, b).value);
    Associate(RenameOne(types, links, h), Rename(types, links, t), Rename(types, links, b));
    Associate([base], Starts(t, base + |h|), Starts(b, base + |h| + |t|));
  }

  /** One instruction is a stream. */
  lemma SingleStream(types: Types, links: Links, h: Code, base: nat)
    requires IsOne(types, h)
    ensures Decode(types, h).Some? && Starts(h, base) == [base] && Rename(types, links, h) == RenameOne(types, links, h)
  {
    hide Advance, DecodeOne, RenameOne, IsOne;
    assert h + [] == h;
    assert DecodeOne(types, h).Some? by { OneDecodes(types, h); }
    OneIsWhole(types, h);
    NothingToRead();
    DecodeHead(types, h, []);
    Head(types, links, h, [], base);
  }

  lemma OneDecodes(types: Types, h: Code)
    requires IsOne(types, h)
    ensures DecodeOne(types, h).Some? && h != []
  {
  }

  // ---------------------------------------------------------------- byte by byte

  /** What linking makes of the bytes of an instruction other than `NEW_AXIOMS`: the byte behind the opcode becomes
      the low byte of a linker id, for ALLOC, ITER and DELETE that of the predicate in its low seven bits and for
      RULE that of the rule in the word that begins there.  Nothing else changes. */
  ghost predicate LinkedBytes(links: Links, before: Code, after: Code) {
    before != [] &&
    if before[0] == 0x40 || before[0] == 0xA0 || before[0] == 0x0D then
      |before| >= 2 && after == before[1 := links.pred(before[1] % 0x80) % 0x100]
    else if before[0] == 0x10 then
      |before| >= 5 &&
      var rule := (before[1] as nat) + 0x100 * (before[2] as nat) + 0x1_0000 * (before[3] as nat)
                  + 0x100_0000 * (before[4] as nat);
      after == before[1 := links.rule(rule) % 0x100]
    else
      after == before
  }

  /** An instruction that is long enough for the ids that it names. */
  ghost predicate LongEnough(h: Code) {
    && h != [] && (h[0] == ALLOC || h[0] == ITER || h[0] == DELETE ==> |h| >= 2) && (h[0] == RULE ==> |h| >= 5)
    && (h[0] == NEW_AXIOMS ==> |h| >= NEW_AXIOMS_BASE)
  }

  lemma OneLinked(types: Types, links: Links, h: Code)
    requires LongEnough(h) && h[0] != 0x14
    ensures LinkedBytes(links, h, RenameOne(types, links, h))
  {
  }

  /** And how these instructions are read. */
  lemma OneRead(types: Types, h: Code)
    requires h != [] && Advance(h) == Some(|h|)
    ensures h[0] == 0x40 || h[0] == 0xA0 || h[0] == 0x0D ==>
              |h| >= 2 && DecodeOne(types, h) == Some(OnPredicate(h[0], h[1] % 0x80, h[2..]))
    ensures h[0] == 0x10 ==>
              |h| == 5
              && DecodeOne(types, h) == Some(RuleId((h[1] as nat) + 0x100 * (h[2] as nat) + 0x1_0000 * (h[3] as nat)
                                                    + 0x100_0000 * (h[4] as nat)))
    ensures h[0] !in {0x40, 0xA0, 0x0D, 0x10, 0x14} ==> DecodeOne(types, h) == Some(Plain(h))
  {
  }

  // ---------------------------------------------------------------- facts, byte by byte

  /** The bytes of a list: elements of `width` bytes, each behind a 1, and a byte that is none. */
  ghost predicate ListCode(width: nat, f: Code)
    decreases |f|
  {
    f != [] && if f[0] == 1 then 1 + width < |f| && ListCode(width, f[1 + width..]) else |f| == 1
  }

  /** The bytes of a field: four for an int or a node, eight for a float. */
  ghost predicate FieldCode(t: FieldType, f: Code) {
    match t
    case IntField => |f| == 4
    case FloatField => |f| == 8
    case NodeField => |f| == 4
    case IntList => ListCode(4, f)
    case FloatList => ListCode(8, f)
    case NodeList => ListCode(4, f)
  }

  /** A fact as it is written: the byte of its predicate and its fields. */
  datatype FactCode = FactCode(pred: Byte, fields: seq<Code>)

  ghost predicate TypedFact(types: Types, f: FactCode) {
    var ts := types(f.pred % 0x80);
    |f.fields| == |ts| && forall i :: 0 <= i < |ts| ==> FieldCode(ts[i], f.fields[i])
  }

  ghost function FactsCode(facts: seq<FactCode>): Code {
    if facts == [] then [] else [facts[0].pred] + Concat(facts[0].fields) + FactsCode(facts[1..])
  }

  /** The facts with the low bytes of linker ids for their predicates. */
  ghost function LinkedFacts(links: Links, facts: seq<FactCode>): seq<FactCode> {
    seq(|facts|, i requires 0 <= i < |facts| => FactCode(links.pred(facts[i].pred % 0x80) % 0x100, facts[i].fields))
  }

  lemma {:induction false} ListKnown(width: nat, f: Code, rest: Code)
    requires ListCode(width, f)
    ensures ListSize(width, f + rest) == Some(|f|)
    decreases |f|
  {
    if f[0] == 1 {
      ListKnown(width, f[1 + width..], rest);
      assert (f + rest)[1 + width..] == f[1 + width..] + rest;
    }
  }

  lemma FieldKnown(t: FieldType, f: Code, rest: Code)
    requires FieldCode(t, f)
    ensures FieldSize(t, f + rest) == Some(|f|)
  {
    match t
    case IntList => ListKnown(4, f, rest);
    case FloatList => ListKnown(8, f, rest);
    case NodeList => ListKnown(4, f, rest);
    case _ =>
  }

  lemma {:induction false} FieldsKnown(ts: seq<FieldType>, fields: seq<Code>, rest: Code)
    requires |fields| == |ts| && forall i :: 0 <= i < |ts| ==> FieldCode(ts[i], fields[i])
    ensures FieldsSize(ts, Concat(fields) + rest) == Some(|Concat(fields)|)
  {
    hide FieldSize, FieldCode;
    if ts != [] {
      var more := Concat(fields[1..]) + rest;
      assert Concat(fields) + rest == fields[0] + more;
      FieldKnown(ts[0], fields[0], more);
      FieldsKnown(ts[1..], fields[1..], rest);
      assert (fields[0] + more)[|fields[0]|..] == more;
    }
  }

  /** Linking the facts of `NEW_AXIOMS` replaces the byte of each predicate and nothing else. */
  lemma {:induction false} FactsLinked(types: Types, links: Links, facts: seq<FactCode>)
    requires forall i :: 0 <= i < |facts| ==> TypedFact(types, facts[i])
    ensures RenameFacts(types, links, FactsCode(facts)) == FactsCode(LinkedFacts(links, facts))
  {
    hide FieldsSize, RenameFacts, Concat;
    if facts == [] {
      NothingRenamed(types, links);
      assert LinkedFacts(links, facts) == [];
    } else {
      var b, f, rest := facts[0].pred, Concat(facts[0].fields), FactsCode(facts[1..]);
      assert TypedFact(types, facts[0]);
      FieldsKnown(types(b % 0x80), facts[0].fields, rest);
      assert ([b] + f + rest)[1..] == f + rest;
      RenameFirst(types, links, b, f, rest);
      FactsLinked(types, links, facts[1..]);
      assert LinkedFacts(links, facts)[1..] == LinkedFacts(links, facts[1..]);
    }
  }

  lemma NothingRenamed(types: Types, links: Links)
    ensures RenameFacts(types, links, []) == []
  {
  }

  /** `NEW_AXIOMS` with its facts. */
  lemma AxiomsLinked(types: Types, links: Links, jump: Code, facts: seq<FactCode>)
    requires |jump| == 4 && forall i :: 0 <= i < |facts| ==> TypedFact(types, facts[i])
    ensures RenameOne(types, links, [0x14] + jump + FactsCode(facts))
            == [0x14] + jump + FactsCode(LinkedFacts(links, facts))
  {
    hide FactsCode, LinkedFacts, RenameFacts, TypedFact;
    var h := [0x14] + jump + FactsCode(facts);
    FactsLinked(types, links, facts);
    assert h[..5] == [0x14] + jump && h[5..] == FactsCode(facts);
  }

  // ---------------------------------------------------------------- ids that do not fit

  /** A rule whose linker id needs another second byte: the walk writes the low byte only, and rule 5
      becomes rule 44 instead of 300. */
  lemma RuleIdTruncated(types: Types)
    ensures var links := Links(p => p, r => r + 295);
            var code: Code := [RULE, 5, 0, 0, 0];
            && DecodeOne(types, code) == Some(RuleId(5)) && links.rule(5) == 300
            && DecodeOne(types, RenameOne(types, links, code)) == Some(RuleId(44))
  {
    var links := Links(p => p, r => r + 295);
    var code: Code := [RULE, 5, 0, 0, 0];
    var code': Code := [RULE, 44, 0, 0, 0];
    assert Word(code, 1) == 5 && Word(code', 1) == 44;
    assert RenameOne(types, links, code) == code';
  }

  /** A predicate whose linker id does not fit into seven bits: predicate 3 becomes predicate 72 instead
      of 200. */
  lemma PredicateIdMasked(types: Types)
    ensures var links := Links(p => p + 197, r => r);
            var code: Code := [ALLOC, 3, 0];
            && DecodeOne(types, code) == Some(OnPredicate(ALLOC, 3, [0])) && links.pred(3) == 200
            && DecodeOne(types, RenameOne(types, links, code)) == Some(OnPredicate(ALLOC, 72, [0]))
  {
    var links := Links(p => p + 197, r => r);
    var code: Code := [ALLOC, 3, 0];
    var code': Code := [ALLOC, 200, 0];
    assert RenameOne(types, links, code) == code';
  }
}
