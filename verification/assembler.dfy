/**
  An encoder for the byte code of predicates/vm/instr.hpp, instruction by instruction, and its agreement
  with `advance`: an instruction is exactly as long as the bytes that it is written in.
*/
module Assembler {
  import opened Common
  import opened Bytecode

  // ---------------------------------------------------------------- operands

  /** What an operand refers to, with the bytes that stand for it behind the fixed part of the instruction. */
  datatype Ref =
    | Reg(n: nat)
    | FloatLit(bytes: Code)
    | IntLit(bytes: Code)
    | FieldRef(bytes: Code)
    | Host
    | Nil
    | NodeLit(bytes: Code)
    | StringRef(bytes: Code)
    | ArgumentRef(bytes: Code)
    | ConstRef(bytes: Code)
    | StackRef(bytes: Code)
    | Counter
    | Pointer(bytes: Code)
    | WholeTuple

  /** Its number of bytes. */
  ghost predicate Sized(x: Ref) {
    match x
    case Reg(n) => n < 0x20
    case FloatLit(bytes) => |bytes| == 8
    case IntLit(bytes) => |bytes| == 4
    case FieldRef(bytes) => |bytes| == 2
    case NodeLit(bytes) => |bytes| == 4
    case StringRef(bytes) => |bytes| == 4
    case ArgumentRef(bytes) => |bytes| == 1
    case ConstRef(bytes) => |bytes| == 4
    case StackRef(bytes) => |bytes| == 1
    case Pointer(bytes) => |bytes| == 8
    case _ => true
  }

  function Payload(x: Ref): Code {
    match x
    case Reg(_) => []
    case Host => []
    case Nil => []
    case Counter => []
    case WholeTuple => []
    case _ => x.bytes
  }

  /** The byte that describes an operand; `mark` is its two high bits. */
  function Tag(x: Ref, mark: nat): Byte
    requires mark < 4
  {
    0x40 * mark +
    match x
    case Reg(n) => 0x20 + n % 0x20
    case FloatLit(_) => 0x00
    case IntLit(_) => 0x01
    case FieldRef(_) => 0x02
    case Host => 0x03
    case Nil => 0x04
    case NodeLit(_) => 0x05
    case StringRef(_) => 0x06
    case ArgumentRef(_) => 0x07
    case ConstRef(_) => 0x08
    case StackRef(_) => 0x09
    case Counter => 0x0A
    case Pointer(_) => 0x0B
    case WholeTuple => 0x1F
  }

  /** What may stand in each kind of place. */
  ghost predicate Accepts(kind: ArgKind, x: Ref) {
    match kind
    case Anything => true
    case NotNil => !x.Nil?
    case IntArg => x.Reg? || x.IntLit? || x.FieldRef? || x.ConstRef? || x.StackRef?
    case Writable => x.Reg? || x.FieldRef? || x.ConstRef? || x.StackRef? || x.Counter?
    case ListArg => x.Reg? || x.FieldRef? || x.Nil? || x.StackRef?
    case NonList => !x.Nil? && !x.WholeTuple?
    case BoolArg => x.Reg? || x.FieldRef? || x.ConstRef? || x.StackRef?
    case NodeArg => x.Reg? || x.FieldRef? || x.Host? || x.NodeLit? || x.ConstRef? || x.StackRef?
  }

  /** `arg_size` of a described operand is the number of its bytes, or it is refused. */
  lemma ArgKnown(kind: ArgKind, x: Ref, mark: nat)
    requires Sized(x) && mark < 4
    ensures ArgSize(kind, Val(Tag(x, mark))) == if Accepts(kind, x) then Some(|Payload(x)|) else None
    ensures IsEnd(Tag(x, mark)) <==> mark == 1
    ensures IsNone(Tag(x, mark)) <==> mark == 3
  {
    assert Val(Tag(x, mark)) == Tag(x, 0);
  }

  // ---------------------------------------------------------------- instructions

  /** An argument of a call; one of a deletion, with its index; a field match of an iteration. */
  datatype Indexed = Indexed(index: Byte, arg: Ref)

  datatype Asm =
    | Bare(op: Byte, bytes: Code)
    | Unary(op: Byte, x: Ref)
    | Binary(op: Byte, x: Ref, y: Ref)
    | OnList(op: Byte, elem: Byte, x: Ref, y: Ref)
    | Cons(elem: Byte, head: Ref, tail: Ref, dest: Ref)
    | Operate(x: Ref, y: Ref, dest: Ref, operator: Byte)
    | Colocated(x: Ref, y: Ref, reg: Byte)
    | CallOf(op: Byte, id: Byte, reg: Byte, args: seq<Ref>)
    | DeleteOf(pred: Byte, fields: seq<Indexed>)
    | IterOver(pred: Byte, options: Byte, optionsArg: Byte, jump: Code, matches: seq<Indexed>)
    | SelectBy(size: Code, table: seq<Code>)
    | AxiomsOf(facts: Code)

  /** The bytes behind the opcode of the instructions without operands. */
  ghost function BareLength(op: Byte): Option<nat> {
    match op
    case 0x00 => Some(0) // RETURN
    case 0x01 => Some(0) // NEXT
    case 0x08 => Some(2) // SEND: two registers
    case 0x0B => Some(4) // RETURN_SELECT: a jump
    case 0x0E => Some(4) // RESET_LINEAR: a jump
    case 0x0F => Some(0) // END_LINEAR
    case 0x10 => Some(4) // RULE: its id
    case 0x11 => Some(0) // RULE_DONE
    case 0x13 => Some(1) // NEW_NODE: a register
    case 0x15 => Some(6) // SEND_DELAY: two registers and a time
    case 0x16 => Some(0) // PUSH
    case 0x17 => Some(0) // POP
    case 0x18 => Some(0) // PUSH_REGS
    case 0x19 => Some(0) // POP_REGS
    case 0x1A => Some(1) // CALLF: a function
    case 0x40 => Some(2) // ALLOC: a predicate and a register
    case 0x60 => Some(5) // IF: a register and a jump
    case 0x80 => Some(1) // REMOVE: a register
    case 0xD0 => Some(0) // RETURN_LINEAR
    case 0xF0 => Some(0) // RETURN_DERIVED
    case _ => None
  }

  /** What an instruction with two operands accepts: TEST_NIL, NOT, FLOAT, MOVE. */
  ghost function BinaryKinds(op: Byte): Option<(ArgKind, ArgKind)> {
    match op
    case 0x03 => Some((ListArg, Writable))
    case 0x07 => Some((BoolArg, Writable))
    case 0x09 => Some((IntArg, Writable))
    case 0x30 => Some((NotNil, Writable))
    case _ => None
  }

  ghost predicate AllSized(args: seq<Indexed>) {
    forall i :: 0 <= i < |args| ==> Sized(args[i].arg)
  }

  /** The numbers and sizes that the form of an instruction fixes. */
  ghost predicate Formed(i: Asm) {
    match i
    case Bare(op, bytes) => BareLength(op) == Some(|bytes|)
    case Unary(op, x) => op == 0x70 && Sized(x)
    case Binary(op, x, y) => BinaryKinds(op).Some? && Sized(x) && Sized(y)
    case OnList(op, _, x, y) => (op == 0x05 || op == 0x06) && Sized(x) && Sized(y)
    case Cons(_, x, y, z) => Sized(x) && Sized(y) && Sized(z)
    case Operate(x, y, z, _) => Sized(x) && Sized(y) && Sized(z)
    case Colocated(x, y, _) => Sized(x) && Sized(y)
    case CallOf(op, _, _, args) =>
      (op == 0x20 || op == 0x1B) && |args| < 0x100 && forall k :: 0 <= k < |args| ==> Sized(args[k])
    case DeleteOf(_, fields) => |fields| < 0x100 && AllSized(fields)
    case IterOver(_, _, _, jump, matches) => |jump| == 4 && AllSized(matches)
    case SelectBy(size, table) => |size| == 4 && |table| < 0x1_0000_0000 && forall k :: 0 <= k < |table| ==> |table[k]| == 4
    case AxiomsOf(facts) => |facts| + 5 < 0x1_0000_0000
  }

  /** Each operand is of a kind that its place accepts. */
  ghost predicate Accepted(i: Asm)
    requires Formed(i)
  {
    match i
    case Unary(_, x) => Accepts(Writable, x)
    case Binary(op, x, y) => Accepts(BinaryKinds(op).value.0, x) && Accepts(BinaryKinds(op).value.1, y)
    case OnList(_, _, x, y) => Accepts(ListArg, x) && Accepts(Writable, y)
    case Cons(_, x, y, z) => Accepts(NonList, x) && Accepts(ListArg, y) && Accepts(Writable, z)
    case Operate(_, _, z, _) => Accepts(Writable, z)
    case Colocated(x, y, _) => Accepts(NodeArg, x) && Accepts(NodeArg, y)
    case _ => true
  }

  /** A 32-bit number, lowest byte first. */
  function Number(n: nat): Code {
    [n % 0x100, n / 0x100 % 0x100, n / 0x1_0000 % 0x100, n / 0x100_0000 % 0x100]
  }

  ghost function CallArgs(args: seq<Ref>): Code
    requires forall k :: 0 <= k < |args| ==> Sized(args[k])
  {
    if args == [] then []
    else [Tag(args[0], 0)] + Payload(args[0]) + CallArgs(args[1..])
  }

  ghost function DeleteArgs(args: seq<Indexed>): Code
    requires AllSized(args)
  {
    if args == [] then []
    else [args[0].index, Tag(args[0].arg, 0)] + Payload(args[0].arg) + DeleteArgs(args[1..])
  }

  /** The last match is marked; no match at all has a mark of its own. */
  ghost function Matches(matches: seq<Indexed>): Code
    requires AllSized(matches)
  {
    if matches == [] then [0, 0xC0]
    else if |matches| == 1 then [matches[0].index, Tag(matches[0].arg, 1)] + Payload(matches[0].arg)
    else [matches[0].index, Tag(matches[0].arg, 0)] + Payload(matches[0].arg) + Matches(matches[1..])
  }

  /** The bytes of an instruction: its fixed part, and then what its operands take. */
  ghost function Assemble(i: Asm): Code
    requires Formed(i)
  {
    match i
    case Bare(op, bytes) => [op] + bytes
    case Unary(op, x) => [op, Tag(x, 0)] + Payload(x)
    case Binary(op, x, y) => [op, Tag(x, 0), Tag(y, 0)] + (Payload(x) + Payload(y))
    case OnList(op, elem, x, y) => [op, elem, Tag(x, 0), Tag(y, 0)] + (Payload(x) + Payload(y))
    case Cons(elem, x, y, z) =>
      [0x04, elem, Tag(x, 0), Tag(y, 0), Tag(z, 0)] + (Payload(x) + Payload(y) + Payload(z))
    case Operate(x, y, z, operator) =>
      [0xC0, Tag(x, 0), Tag(y, 0), Tag(z, 0), operator] + (Payload(x) + Payload(y) + Payload(z))
    case Colocated(x, y, reg) => [0x0C, Tag(x, 0), Tag(y, 0), reg] + (Payload(x) + Payload(y))
    case CallOf(op, id, reg, args) => [op, id, |args|, reg] + CallArgs(args)
    case DeleteOf(pred, fields) => [0x0D, pred, |fields|] + DeleteArgs(fields)
    case IterOver(pred, options, optionsArg, jump, matches) =>
      [0xA0, pred, options, optionsArg] + jump + Matches(matches)
    case SelectBy(size, table) => [0x0A] + size + Number(|table|) + Concat(table)
    case AxiomsOf(facts) => [0x14] + Number(5 + |facts|) + facts
  }

  // ---------------------------------------------------------------- and their lengths

  lemma BareAdvance(op: Byte, s: Code)
    requires BareLength(op).Some? && |s| >= 1 + BareLength(op).value && s[0] == op
    ensures Advance(s) == Some(1 + BareLength(op).value)
  {
    assert OperandsSize(s, []) == Some(0);
  }

  /** The layout of an instruction with one, two or three operands. */
  lemma OneOperand(s: Code, at: nat, kind: ArgKind, x: Ref)
    requires at < |s| && Sized(x) && s[at] == Tag(x, 0)
    ensures OperandsSize(s, [Operand(at, kind)]) == if Accepts(kind, x) then Some(|Payload(x)|) else None
  {
    ArgKnown(kind, x, 0);
    assert [Operand(at, kind)][1..] == [];
  }

  lemma MoreOperands(s: Code, at: nat, kind: ArgKind, x: Ref, more: seq<Operand>)
    requires at < |s| && Sized(x) && s[at] == Tag(x, 0)
    ensures var rest := OperandsSize(s, more);
            OperandsSize(s, [Operand(at, kind)] + more)
            == if Accepts(kind, x) && rest.Some? then Some(|Payload(x)| + rest.value) else None
  {
    ArgKnown(kind, x, 0);
    assert ([Operand(at, kind)] + more)[1..] == more;
  }

  lemma TwoOperands(s: Code, at: nat, kx: ArgKind, x: Ref, ky: ArgKind, y: Ref)
    requires at + 1 < |s| && Sized(x) && Sized(y) && s[at] == Tag(x, 0) && s[at + 1] == Tag(y, 0)
    ensures OperandsSize(s, [Operand(at, kx), Operand(at + 1, ky)])
            == if Accepts(kx, x) && Accepts(ky, y) then Some(|Payload(x)| + |Payload(y)|) else None
  {
    hide OperandsSize, Accepts, Payload, Tag;
    OneOperand(s, at + 1, ky, y);
    MoreOperands(s, at, kx, x, [Operand(at + 1, ky)]);
    assert [Operand(at, kx)] + [Operand(at + 1, ky)] == [Operand(at, kx), Operand(at + 1, ky)];
  }

  lemma ThreeOperands(s: Code, at: nat, kx: ArgKind, x: Ref, ky: ArgKind, y: Ref, kz: ArgKind, z: Ref)
    requires at + 2 < |s| && Sized(x) && Sized(y) && Sized(z)
    requires s[at] == Tag(x, 0) && s[at + 1] == Tag(y, 0) && s[at + 2] == Tag(z, 0)
    ensures OperandsSize(s, [Operand(at, kx), Operand(at + 1, ky), Operand(at + 2, kz)])
            == if Accepts(kx, x) && Accepts(ky, y) && Accepts(kz, z)
               then Some(|Payload(x)| + |Payload(y)| + |Payload(z)|) else None
  {
    hide OperandsSize, Accepts, Payload, Tag;
    TwoOperands(s, at + 1, ky, y, kz, z);
    MoreOperands(s, at, kx, x, [Operand(at + 1, ky), Operand(at + 2, kz)]);
    assert [Operand(at, kx)] + [Operand(at + 1, ky), Operand(at + 2, kz)]
        == [Operand(at, kx), Operand(at + 1, ky), Operand(at + 2, kz)];
  }

  /** One argument behind `lead` bytes, whatever follows. */
  lemma EntryKnown(front: Code, x: Ref, mark: nat, rest: Code)
    requires Sized(x) && mark < 4
    ensures var s := front + [Tag(x, mark)] + Payload(x) + rest;
            && EntrySize(s, |front|) == Some(|front| + 1 + |Payload(x)|)
            && s[|front| + 1 + |Payload(x)|..] == rest
  {
    hide ArgSize, Tag;
    ArgKnown(Anything, x, mark);
  }

  lemma ArgsMore(s: Code, num: nat, lead: nat, size: nat, more: Code)
    requires EntrySize(s, lead) == Some(size) && s[size..] == more && num > 0
    ensures ArgsSize(s, num, lead) == Plus(size, ArgsSize(more, num - 1, lead))
  {
    hide EntrySize;
  }

  lemma Grouped(front: Code, tag: Byte, p: Code, more: Code, rest: Code)
    ensures front + [tag] + p + more + rest == front + [tag] + p + (more + rest)
  {
  }

  lemma CallFirst(args: seq<Ref>, rest: Code)
    requires args != [] && forall k :: 0 <= k < |args| ==> Sized(args[k])
    ensures CallArgs(args) + rest == [Tag(args[0], 0)] + Payload(args[0]) + (CallArgs(args[1..]) + rest)
    ensures |CallArgs(args)| == 1 + |Payload(args[0])| + |CallArgs(args[1..])|
  {
    hide Tag, Payload, Sized;
    Associate([Tag(args[0], 0)] + Payload(args[0]), CallArgs(args[1..]), rest);
  }

  lemma {:induction false} CallArgsKnown(args: seq<Ref>, rest: Code)
    requires forall k :: 0 <= k < |args| ==> Sized(args[k])
    ensures ArgsSize(CallArgs(args) + rest, |args|, 0) == Some(|CallArgs(args)|)
  {
    hide Tag, Payload, Sized, EntrySize, ArgsSize, CallArgs;
    if args == [] {
      NoArgs(rest);
    } else {
      var more := CallArgs(args[1..]) + rest;
      CallFirst(args, rest);
      NothingInFront([Tag(args[0], 0)]);
      EntryKnown([], args[0], 0, more);
      ArgsMore(CallArgs(args) + rest, |args|, 0, 1 + |Payload(args[0])|, more);
      CallArgsKnown(args[1..], rest);
    }
  }

  lemma NoArgs(rest: Code)
    ensures CallArgs([]) == [] && ArgsSize([] + rest, 0, 0) == Some(0)
    ensures DeleteArgs([]) == [] && ArgsSize([] + rest, 0, 1) == Some(0)
  {
  }

  lemma DeleteFirst(args: seq<Indexed>, rest: Code)
    requires args != [] && AllSized(args)
    ensures DeleteArgs(args) + rest
            == [args[0].index] + [Tag(args[0].arg, 0)] + Payload(args[0].arg) + (DeleteArgs(args[1..]) + rest)
    ensures |DeleteArgs(args)| == 2 + |Payload(args[0].arg)| + |DeleteArgs(args[1..])|
  {
    hide Tag, Payload, Sized;
    var tag, p, more := Tag(args[0].arg, 0), Payload(args[0].arg), DeleteArgs(args[1..]);
    assert [args[0].index] + [tag] == [args[0].index, tag];
    Grouped([args[0].index], tag, p, more, rest);
  }

  lemma {:induction false} DeleteArgsKnown(args: seq<Indexed>, rest: Code)
    requires AllSized(args)
    ensures ArgsSize(DeleteArgs(args) + rest, |args|, 1) == Some(|DeleteArgs(args)|)
  {
    hide Tag, Payload, Sized, EntrySize, ArgsSize, DeleteArgs;
    if args == [] {
      NoArgs(rest);
    } else {
      var more := DeleteArgs(args[1..]) + rest;
      DeleteFirst(args, rest);
      EntryKnown([args[0].index], args[0].arg, 0, more);
      ArgsMore(DeleteArgs(args) + rest, |args|, 1, 2 + |Payload(args[0].arg)|, more);
      DeleteArgsKnown(args[1..], rest);
    }
  }

  lemma MatchFirst(matches: seq<Indexed>, rest: Code)
    requires matches != [] && AllSized(matches)
    ensures var x, mark := matches[0].arg, if |matches| == 1 then 1 else 0;
            var more := if |matches| == 1 then rest else Matches(matches[1..]) + rest;
            && Matches(matches) + rest == [matches[0].index] + [Tag(x, mark)] + Payload(x) + more
            && |Matches(matches)| == 2 + |Payload(x)| + if |matches| == 1 then 0 else |Matches(matches[1..])|
  {
    hide Tag, Payload, Sized;
    var x, mark := matches[0].arg, if |matches| == 1 then 1 else 0;
    assert [matches[0].index] + [Tag(x, mark)] == [matches[0].index, Tag(x, mark)];
    if |matches| > 1 {
      Grouped([matches[0].index], Tag(x, 0), Payload(x), Matches(matches[1..]), rest);
    }
  }

  lemma ListMore(s: Code, size: nat)
    requires EntrySize(s, 1) == Some(size)
    ensures MatchList(s) == if IsEnd(s[1]) then Some(size) else Plus(size, MatchList(s[size..]))
  {
    hide EntrySize;
  }

  lemma {:induction false} MatchesKnown(matches: seq<Indexed>, rest: Code)
    requires AllSized(matches) && matches != []
    ensures MatchList(Matches(matches) + rest) == Some(|Matches(matches)|)
    ensures MatchesSize(Matches(matches) + rest) == Some(|Matches(matches)|)
  {
    hide Tag, Payload, Sized, EntrySize, MatchList, Matches, IsEnd, IsNone;
    var s := Matches(matches) + rest;
    var x, mark := matches[0].arg, if |matches| == 1 then 1 else 0;
    var more := if |matches| == 1 then rest else Matches(matches[1..]) + rest;
    MatchFirst(matches, rest);
    EntryKnown([matches[0].index], x, mark, more);
    ArgKnown(Anything, x, mark);
    ListMore(s, 2 + |Payload(x)|);
    if |matches| > 1 {
      MatchesKnown(matches[1..], rest);
    }
  }

  // One lemma for each form of instruction; `rest` is whatever follows.

  lemma UnaryAdvance(i: Asm, rest: Code)
    requires i.Unary? && Formed(i)
    ensures Advance(Assemble(i) + rest) == if Accepted(i) then Some(|Assemble(i)|) else None
  {
    hide Tag, Payload, Sized, Accepts, OperandsSize;
    OneOperand(Assemble(i) + rest, 1, Writable, i.x);
  }

  lemma BinaryAdvance(i: Asm, rest: Code)
    requires i.Binary? && Formed(i)
    ensures Advance(Assemble(i) + rest) == if Accepted(i) then Some(|Assemble(i)|) else None
  {
    hide Tag, Payload, Sized, Accepts, OperandsSize;
    var s := Assemble(i) + rest;
    var kinds := BinaryKinds(i.op).value;
    TwoOperands(s, 1, kinds.0, i.x, kinds.1, i.y);
  }

  lemma OnListAdvance(i: Asm, rest: Code)
    requires i.OnList? && Formed(i)
    ensures Advance(Assemble(i) + rest) == if Accepted(i) then Some(|Assemble(i)|) else None
  {
    hide Tag, Payload, Sized, Accepts, OperandsSize;
    TwoOperands(Assemble(i) + rest, 2, ListArg, i.x, Writable, i.y);
  }

  lemma ColocatedAdvance(i: Asm, rest: Code)
    requires i.Colocated? && Formed(i)
    ensures Advance(Assemble(i) + rest) == if Accepted(i) then Some(|Assemble(i)|) else None
  {
    hide Tag, Payload, Sized, Accepts, OperandsSize;
    TwoOperands(Assemble(i) + rest, 1, NodeArg, i.x, NodeArg, i.y);
  }

  lemma ConsAdvance(i: Asm, rest: Code)
    requires i.Cons? && Formed(i)
    ensures Advance(Assemble(i) + rest) == if Accepted(i) then Some(|Assemble(i)|) else None
  {
    hide Tag, Payload, Sized, Accepts, OperandsSize;
    ThreeOperands(Assemble(i) + rest, 2, NonList, i.head, ListArg, i.tail, Writable, i.dest);
  }

  lemma OperateAdvance(i: Asm, rest: Code)
    requires i.Operate? && Formed(i)
    ensures Advance(Assemble(i) + rest) == if Accepted(i) then Some(|Assemble(i)|) else None
  {
    hide Tag, Payload, Sized, OperandsSize;
    ThreeOperands(Assemble(i) + rest, 1, Anything, i.x, Anything, i.y, Writable, i.dest);
  }

  lemma CallAdvance(i: Asm, rest: Code)
    requires i.CallOf? && Formed(i)
    ensures Advance(Assemble(i) + rest) == Some(|Assemble(i)|)
  {
    hide Sized, CallArgs, ArgsSize;
    var s := Assemble(i) + rest;
    CallArgsKnown(i.args, rest);
    assert s[4..] == CallArgs(i.args) + rest;
  }

  lemma DeleteAdvance(i: Asm, rest: Code)
    requires i.DeleteOf? && Formed(i)
    ensures Advance(Assemble(i) + rest) == Some(|Assemble(i)|)
  {
    hide Sized, DeleteArgs, ArgsSize;
    var s := Assemble(i) + rest;
    DeleteArgsKnown(i.fields, rest);
    assert s[3..] == DeleteArgs(i.fields) + rest;
  }

  lemma IterAdvance(i: Asm, rest: Code)
    requires i.IterOver? && Formed(i)
    ensures Advance(Assemble(i) + rest) == Some(|Assemble(i)|)
  {
    hide Sized, Tag, Payload, MatchList;
    var s := Assemble(i) + rest;
    hide Matches, MatchesSize;
    assert s[8..] == Matches(i.matches) + rest;
    if i.matches == [] {
      NoMatch(rest);
    } else {
      MatchesKnown(i.matches, rest);
    }
  }

  lemma NoMatch(rest: Code)
    ensures |Matches([])| == 2 && MatchesSize(Matches([]) + rest) == Some(2)
  {
  }

  lemma NumberWord(front: Code, n: nat, rest: Code)
    requires n < 0x1_0000_0000
    ensures Word(front + Number(n) + rest, |front|) == n
  {
    var s := front + Number(n) + rest;
    assert forall k :: 0 <= k < 4 ==> s[|front| + k] == Number(n)[k];
    var a, b, c := n / 0x100, n / 0x1_0000, n / 0x100_0000;
    assert a / 0x100 == b && b / 0x100 == c && c < 0x100;
  }

  lemma {:induction false} TableLength(table: seq<Code>)
    requires forall k :: 0 <= k < |table| ==> |table[k]| == 4
    ensures |Concat(table)| == 4 * |table|
  {
    if table != [] {
      TableLength(table[1..]);
    }
  }

  lemma SelectAdvance(i: Asm, rest: Code)
    requires i.SelectBy? && Formed(i)
    ensures Advance(Assemble(i) + rest) == Some(|Assemble(i)|)
  {
    hide Concat, Word;
    TableLength(i.table);
    NumberWord([0x0A] + i.size, |i.table|, Concat(i.table) + rest);
    assert Assemble(i) + rest == [0x0A] + i.size + Number(|i.table|) + (Concat(i.table) + rest);
  }

  lemma AxiomsAdvance(i: Asm, rest: Code)
    requires i.AxiomsOf? && Formed(i)
    ensures Advance(Assemble(i) + rest) == Some(|Assemble(i)|)
  {
    hide Word;
    NumberWord([0x14], 5 + |i.facts|, i.facts + rest);
    assert Assemble(i) + rest == [0x14] + Number(5 + |i.facts|) + (i.facts + rest);
  }

  /** `advance` moves over the bytes of an instruction exactly, whatever follows them, and throws for an operand
      that its place does not accept. */
  lemma AdvanceAssembled(i: Asm, rest: Code)
    requires Formed(i)
    ensures Advance(Assemble(i) + rest) == if Accepted(i) then Some(|Assemble(i)|) else None
  {
    hide Advance;
    match i
    case Bare(op, bytes) => BareAdvance(op, Assemble(i) + rest);
    case Unary(_, _) => UnaryAdvance(i, rest);
    case Binary(_, _, _) => BinaryAdvance(i, rest);
    case OnList(_, _, _, _) => OnListAdvance(i, rest);
    case Cons(_, _, _, _) => ConsAdvance(i, rest);
    case Operate(_, _, _, _) => OperateAdvance(i, rest);
    case Colocated(_, _, _) => ColocatedAdvance(i, rest);
    case CallOf(_, _, _, _) => CallAdvance(i, rest);
    case DeleteOf(_, _) => DeleteAdvance(i, rest);
    case IterOver(_, _, _, _, _) => IterAdvance(i, rest);
    case SelectBy(_, _) => SelectAdvance(i, rest);
    case AxiomsOf(_) => AxiomsAdvance(i, rest);
  }

  /** All other opcodes throw, among them `ELSE`. */
  lemma UnknownThrows(s: Code)
    requires s != [] && BareLength(s[0]).None? && BinaryKinds(s[0]).None?
    requires s[0] !in {0x70, 0x05, 0x06, 0x04, 0xC0, 0x0C, 0x20, 0x1B, 0x0D, 0xA0, 0x0A, 0x14}
    ensures Advance(s) == None
  {
  }
}
