/**
  The byte code of predicates/vm/instr.hpp: operand sizes, the length of each instruction, and the
  linear decoding of a stretch of code.

  All functions look at the code from the current position on, so `s[0]` is the byte at `pc`.
*/
module Bytecode {
  import opened Common

  type Code = seq<Byte>

  const SELECT := 0x0A
  const RETURN_SELECT := 0x0B
  const DELETE := 0x0D
  const RESET_LINEAR := 0x0E
  const END_LINEAR := 0x0F
  const RULE := 0x10
  const NEW_AXIOMS := 0x14
  const CALLE := 0x1B
  const CALL := 0x20
  const ALLOC := 0x40
  const IF := 0x60
  const ITER := 0xA0

  const FIELD_SIZE := 2
  const ITER_MATCH_SIZE := 2
  const VAL_SIZE := 1
  const INT_SIZE := 4
  const FLOAT_SIZE := 8
  const NODE_SIZE := 4
  const STRING_SIZE := 4
  const PTR_SIZE := 8
  const ARGUMENT_SIZE := 1
  const INDEX_SIZE := 1
  const JUMP_SIZE := 4
  const STACK_VAL_SIZE := 1

  const ITER_BASE := 8
  const CALL_BASE := 4
  const DELETE_BASE := 3
  const SELECT_BASE := 9
  const NEW_AXIOMS_BASE := 1 + JUMP_SIZE

  datatype ArgKind = Anything | NotNil | IntArg | Writable | ListArg | NonList | BoolArg | NodeArg

  // ---------------------------------------------------------------- operands

  /** `val_get`: the low six bits. */
  function Val(b: Byte): nat {
    if b < 0x40 then b else if b < 0x80 then b - 0x40 else if b < 0xC0 then b - 0x80 else b - 0xC0
  }

  /** Bit 0x20 of a six-bit value. */
  predicate IsReg(v: nat) {
    v >= 0x20
  }

  /** `iter_match_end` and `iter_match_none`: the two high bits. */
  predicate IsEnd(b: Byte) {
    0x40 <= b < 0x80
  }

  predicate IsNone(b: Byte) {
    b >= 0xC0
  }

  function Width(v: nat): Option<nat> {
    if IsReg(v) then Some(0)
    else match v
         case 0x00 => Some(FLOAT_SIZE)
         case 0x01 => Some(INT_SIZE)
         case 0x02 => Some(FIELD_SIZE)
         case 0x03 => Some(0) // host
         case 0x04 => Some(0) // nil
         case 0x05 => Some(NODE_SIZE)
         case 0x06 => Some(STRING_SIZE)
         case 0x07 => Some(ARGUMENT_SIZE)
         case 0x08 => Some(INT_SIZE) // constant
         case 0x09 => Some(STACK_VAL_SIZE)
         case 0x0A => Some(0) // program counter
         case 0x0B => Some(PTR_SIZE)
         case 0x1F => Some(0) // tuple
         case _ => None
  }

  predicate Allowed(kind: ArgKind, v: nat) {
    IsReg(v) ||
    match kind
    case Anything => true
    case NotNil => v != 0x04
    case IntArg => v == 0x01 || v == 0x02 || v == 0x08 || v == 0x09
    case Writable => v == 0x02 || v == 0x08 || v == 0x09 || v == 0x0A
    case ListArg => v == 0x02 || v == 0x04 || v == 0x09
    case NonList => v != 0x04 && v != 0x1F
    case BoolArg => v == 0x02 || v == 0x08 || v == 0x09
    case NodeArg => v == 0x02 || v == 0x03 || v == 0x05 || v == 0x08 || v == 0x09
  }

  /** `arg_size`: how many bytes an operand has behind the instruction; `None` when it throws. */
  function ArgSize(kind: ArgKind, v: nat): Option<nat> {
    if Allowed(kind, v) then Width(v) else None
  }

  /** A 32-bit word, lowest byte first. */
  function Word(s: Code, at: nat): nat
    requires at + 4 <= |s|
  {
    (s[at] as int) + 0x100 * (s[at + 1] as int) + 0x1_0000 * (s[at + 2] as int) + 0x100_0000 * (s[at + 3] as int)
  }

  // ---------------------------------------------------------------- the length of an instruction

  /** An operand: the byte that describes it and the kinds that are allowed. */
  datatype Operand = Operand(at: nat, kind: ArgKind)

  datatype Layout = Layout(base: nat, operands: seq<Operand>)

  /** The instructions that consist of a fixed part and operands. */
  function LayoutOf(op: Byte): Option<Layout> {
    match op
    case 0x00 => Some(Layout(1, [])) // RETURN
    case 0x01 => Some(Layout(1, [])) // NEXT
    case 0x03 => Some(Layout(3, [Operand(1, ListArg), Operand(2, Writable)])) // TEST_NIL
    case 0x04 => Some(Layout(5, [Operand(2, NonList), Operand(3, ListArg), Operand(4, Writable)])) // CONS
    case 0x05 => Some(Layout(4, [Operand(2, ListArg), Operand(3, Writable)])) // HEAD
    case 0x06 => Some(Layout(4, [Operand(2, ListArg), Operand(3, Writable)])) // TAIL
    case 0x07 => Some(Layout(3, [Operand(1, BoolArg), Operand(2, Writable)])) // NOT
    case 0x08 => Some(Layout(3, [])) // SEND
    case 0x09 => Some(Layout(3, [Operand(1, IntArg), Operand(2, Writable)])) // FLOAT
    case 0x0B => Some(Layout(1 + JUMP_SIZE, [])) // RETURN_SELECT
    case 0x0C => Some(Layout(4, [Operand(1, NodeArg), Operand(2, NodeArg)])) // COLOCATED
    case 0x0E => Some(Layout(1 + JUMP_SIZE, [])) // RESET_LINEAR
    case 0x0F => Some(Layout(1, [])) // END_LINEAR
    case 0x10 => Some(Layout(1 + INT_SIZE, [])) // RULE
    case 0x11 => Some(Layout(1, [])) // RULE_DONE
    case 0x13 => Some(Layout(2, [])) // NEW_NODE
    case 0x15 => Some(Layout(3 + INT_SIZE, [])) // SEND_DELAY
    case 0x16 => Some(Layout(1, [])) // PUSH
    case 0x17 => Some(Layout(1, [])) // POP
    case 0x18 => Some(Layout(1, [])) // PUSH_REGS
    case 0x19 => Some(Layout(1, [])) // POP_REGS
    case 0x1A => Some(Layout(2, [])) // CALLF
    case 0x30 => Some(Layout(3, [Operand(1, NotNil), Operand(2, Writable)])) // MOVE
    case 0x40 => Some(Layout(3, [])) // ALLOC
    case 0x60 => Some(Layout(2 + JUMP_SIZE, [])) // IF
    case 0x70 => Some(Layout(2, [Operand(1, Writable)])) // MOVE_NIL
    case 0x80 => Some(Layout(2, [])) // REMOVE
    case 0xC0 => Some(Layout(5, [Operand(1, Anything), Operand(2, Anything), Operand(3, Writable)])) // OP
    case 0xD0 => Some(Layout(1, [])) // RETURN_LINEAR
    case 0xF0 => Some(Layout(1, [])) // RETURN_DERIVED
    case _ => None
  }

  function OperandsSize(s: Code, operands: seq<Operand>): Option<nat> {
    if operands == [] then Some(0)
    else if operands[0].at >= |s| then None
    else
      var first := ArgSize(operands[0].kind, Val(s[operands[0].at]));
      var rest := OperandsSize(s, operands[1..]);
      if first.Some? && rest.Some? then Some(first.value + rest.value) else None
  }

  /** One field match, or one argument behind `lead` other bytes. */
  function EntrySize(s: Code, lead: nat): (size: Option<nat>)
    ensures size.Some? ==> lead < size.value <= |s|
  {
    if |s| <= lead then None
    else
      match ArgSize(Anything, Val(s[lead]))
      case None => None
      case Some(arg) => if lead + VAL_SIZE + arg > |s| then None else Some(lead + VAL_SIZE + arg)
  }

  /** The list of field matches of an iteration, up to the one marked as the last. */
  function MatchList(s: Code): Option<nat>
    decreases |s|
  {
    match EntrySize(s, 1)
    case None => None
    case Some(size) => if IsEnd(s[1]) then Some(size) else Plus(size, MatchList(s[size..]))
  }

  /** `iter_matches_size`. */
  function MatchesSize(s: Code): Option<nat> {
    if |s| < ITER_MATCH_SIZE then None
    else if IsNone(s[1]) then Some(ITER_MATCH_SIZE)
    else MatchList(s)
  }

  /** `instr_call_args_size` (`lead` is 0) and `instr_delete_args_size` (`lead` is 1, an index byte). */
  function ArgsSize(s: Code, num: nat, lead: nat): Option<nat> {
    if num == 0 then Some(0)
    else
      match EntrySize(s, lead)
      case None => None
      case Some(size) => Plus(size, ArgsSize(s[size..], num - 1, lead))
  }

  function Plus(base: nat, more: Option<nat>): Option<nat> {
    if more.Some? then Some(base + more.value) else None
  }

  /** `advance`: the distance to the next instruction; `None` when it throws or reads past the end. */
  function Advance(s: Code): Option<nat> {
    if s == [] then None
    else if s[0] == ITER then
      if |s| < ITER_BASE then None else Plus(ITER_BASE, MatchesSize(s[ITER_BASE..]))
    else if s[0] == CALL || s[0] == CALLE then
      if |s| < CALL_BASE then None else Plus(CALL_BASE, ArgsSize(s[CALL_BASE..], s[2], 0))
    else if s[0] == DELETE then
      if |s| < DELETE_BASE then None else Plus(DELETE_BASE, ArgsSize(s[DELETE_BASE..], s[2], INDEX_SIZE))
    else if s[0] == SELECT then
      if |s| < SELECT_BASE then None else Some(SELECT_BASE + 4 * Word(s, 1 + 4))
    else if s[0] == NEW_AXIOMS then
      if |s| < NEW_AXIOMS_BASE then None else Some(Word(s, 1))
    else
      match LayoutOf(s[0])
      case None => None
      case Some(layout) => if |s| < layout.base then None else Plus(layout.base, OperandsSize(s, layout.operands))
  }

  // ---------------------------------------------------------------- the loops

  /** The loop of `iter_matches_size`. */
  method IterMatchesSize(s: Code) returns (size: Option<nat>)
    ensures size == MatchesSize(s)
  {
    if |s| < ITER_MATCH_SIZE {
      return None;
    }
    if IsNone(s[1]) {
      return Some(ITER_MATCH_SIZE);
    }
    var pc, total: nat := s, 0;
    while true
      invariant MatchList(s) == Plus(total, MatchList(pc))
      decreases |pc|
    {
      var matchSize := EntrySize(pc, 1);
      if matchSize.None? {
        return None;
      }
      total := total + matchSize.value;
      if IsEnd(pc[1]) {
        return Some(total);
      }
      pc := pc[matchSize.value..];
    }
  }

  /** The loops of `instr_call_args_size` and `instr_delete_args_size`. */
  method ArgsSizeLoop(s: Code, num: nat, lead: nat) returns (size: Option<nat>)
    ensures size == ArgsSize(s, num, lead)
  {
    var arg, total: nat := s, 0;
    for i := 0 to num
      invariant ArgsSize(s, num, lead) == Plus(total, ArgsSize(arg, num - i, lead))
    {
      var argSize := EntrySize(arg, lead);
      if argSize.None? {
        return None;
      }
      arg := arg[argSize.value..];
      total := total + argSize.value;
    }
    size := Some(total);
  }

  // ---------------------------------------------------------------- what the length depends on

  /** Byte `k` of the instruction names a predicate or a rule, or lies among the facts of `NEW_AXIOMS`. */
  predicate Slot(op: Byte, k: nat) {
    if op == NEW_AXIOMS then k >= NEW_AXIOMS_BASE
    else k == 1 && (op == ALLOC || op == ITER || op == DELETE || op == RULE)
  }

  /** The first `n` bytes agree except at slots. */
  ghost predicate Alike(s: Code, s': Code, n: nat) {
    && 0 < n <= |s| && n <= |s'| && s'[0] == s[0]
    && forall k: nat {:trigger s'[k]} :: k < n && !Slot(s[0], k) ==> s'[k] == s[k]
  }

  lemma {:induction false} OperandsAlike(s: Code, s': Code, n: nat, operands: seq<Operand>)
    requires n <= |s| && n <= |s'| && forall i :: 0 <= i < |operands| ==>
               operands[i].at < n && s'[operands[i].at] == s[operands[i].at]
    ensures OperandsSize(s', operands) == OperandsSize(s, operands)
  {
    if operands != [] {
      assert operands[0].at < n;
      OperandsAlike(s, s', n, operands[1..]);
    }
  }

  lemma EntryAlike(s: Code, s': Code, n: nat, lead: nat)
    requires n <= |s| && n <= |s'| && s'[..n] == s[..n] && EntrySize(s, lead).Some? && EntrySize(s, lead).value <= n
    ensures EntrySize(s', lead) == EntrySize(s, lead) && s'[lead] == s[lead]
  {
    assert s'[lead] == s'[..n][lead] == s[lead];
  }

  lemma PrefixTail(s: Code, s': Code, n: nat, size: nat)
    requires size <= n <= |s| && n <= |s'| && s'[..n] == s[..n]
    ensures s'[size..][..n - size] == s[size..][..n - size]
  {
    assert s'[size..][..n - size] == s'[..n][size..];
    assert s[size..][..n - size] == s[..n][size..];
  }

  lemma {:induction false} MatchListAlike(s: Code, s': Code, n: nat)
    requires n <= |s| && n <= |s'| && s'[..n] == s[..n] && MatchList(s) == Some(n)
    ensures MatchList(s') == Some(n)
    decreases |s|
  {
    var size := EntrySize(s, 1).value;
    EntryAlike(s, s', n, 1);
    if !IsEnd(s[1]) {
      PrefixTail(s, s', n, size);
      MatchListAlike(s[size..], s'[size..], n - size);
    }
  }

  lemma {:induction false} ArgsAlike(s: Code, s': Code, n: nat, num: nat, lead: nat)
    requires n <= |s| && n <= |s'| && s'[..n] == s[..n] && ArgsSize(s, num, lead) == Some(n)
    ensures ArgsSize(s', num, lead) == Some(n)
  {
    if num > 0 {
      var size := EntrySize(s, lead).value;
      EntryAlike(s, s', n, lead);
      PrefixTail(s, s', n, size);
      ArgsAlike(s[size..], s'[size..], n - size, num - 1, lead);
    }
  }

  lemma AlikeTail(s: Code, s': Code, n: nat, base: nat)
    requires Alike(s, s', n) && 2 <= base <= n && s[0] != NEW_AXIOMS
    ensures s'[base..][..n - base] == s[base..][..n - base]
  {
    var t, t' := s[base..][..n - base], s'[base..][..n - base];
    forall k | 0 <= k < |t| ensures t'[k] == t[k] {
      assert s'[base + k] == s[base + k];
    }
  }

  /** The length of an instruction does not depend on the predicates and rules that it names, nor on
      anything behind it. */
  lemma AdvanceAlike(s: Code, s': Code, n: nat)
    requires Alike(s, s', n) && Advance(s) == Some(n) && (s[0] == NEW_AXIOMS ==> n >= NEW_AXIOMS_BASE)
    ensures Advance(s') == Some(n)
  {
    if s[0] == ITER {
      AlikeTail(s, s', n, ITER_BASE);
      MatchesAlike(s[ITER_BASE..], s'[ITER_BASE..], n - ITER_BASE);
    } else if s[0] == CALL || s[0] == CALLE {
      AlikeTail(s, s', n, CALL_BASE);
      assert s'[2] == s[2];
      ArgsAlike(s[CALL_BASE..], s'[CALL_BASE..], n - CALL_BASE, s[2], 0);
    } else if s[0] == DELETE {
      AlikeTail(s, s', n, DELETE_BASE);
      assert s'[2] == s[2];
      ArgsAlike(s[DELETE_BASE..], s'[DELETE_BASE..], n - DELETE_BASE, s[2], INDEX_SIZE);
    } else if s[0] == SELECT || s[0] == NEW_AXIOMS {
      WordsAlike(s, s', n);
    } else {
      LayoutAlike(s, s', n);
    }
  }

  lemma MatchesAlike(s: Code, s': Code, n: nat)
    requires n <= |s| && n <= |s'| && s'[..n] == s[..n] && MatchesSize(s) == Some(n)
    ensures MatchesSize(s') == Some(n)
  {
    assert n >= 2;
    assert s'[1] == s'[..n][1] == s[1];
    if !IsNone(s[1]) {
      MatchListAlike(s, s', n);
    }
  }

  lemma WordsAlike(s: Code, s': Code, n: nat)
    requires Alike(s, s', n) && Advance(s) == Some(n)
             && (s[0] == SELECT || (s[0] == NEW_AXIOMS && n >= NEW_AXIOMS_BASE))
    ensures Advance(s') == Some(n)
  {
    if s[0] == SELECT {
      assert s'[5] == s[5] && s'[6] == s[6] && s'[7] == s[7] && s'[8] == s[8];
    } else {
      assert s'[1] == s[1] && s'[2] == s[2] && s'[3] == s[3] && s'[4] == s[4];
    }
  }

  lemma LayoutAlike(s: Code, s': Code, n: nat)
    requires Alike(s, s', n) && Advance(s) == Some(n) && LayoutOf(s[0]).Some?
    requires s[0] != ITER && s[0] != DELETE && s[0] != SELECT && s[0] != NEW_AXIOMS && s[0] != CALL && s[0] != CALLE
    ensures Advance(s') == Some(n)
  {
    var layout := LayoutOf(s[0]).value;
    forall i | 0 <= i < |layout.operands|
      ensures layout.operands[i].at < n && s'[layout.operands[i].at] == s[layout.operands[i].at]
    {
      var at := layout.operands[i].at;
      assert at < layout.base <= n;
      assert !Slot(s[0], at);
      assert s'[at] == s[at];
    }
    OperandsAlike(s, s', n, layout.operands);
  }
}
