/**
  The recursive walk of `instr_print` over code in memory while linking (predicates/vm/instr.cpp): which
  instructions it comes to, how often, and what is in memory afterwards.

  Addresses are positions in the memory, so `c[pc]` is the byte at `pc`.
*/
module RelinkerWalk {
  import opened Common
  import opened Bytecode
  import opened Relinker

  /** Where the walk goes on and the addresses at which `instr_print` has been called, in order. */
  datatype Walk = Walk(next: nat, trail: seq<nat>)

  // ---------------------------------------------------------------- the way of the walk

  /** The length of the instruction at `pc`; 0 if there is none in memory. */
  function Length(c: Code, pc: nat): (n: nat)
    ensures n == 0 || pc + n <= |c|
  {
    if pc >= |c| then 0
    else
      match Advance(c[pc..])
      case None => 0
      case Some(n) => if pc + n <= |c| then n else 0
  }

  function Behind(before: seq<nat>, w: Option<Walk>): Option<Walk> {
    match w
    case None => None
    case Some(w) => Some(Walk(w.next, before + w.trail))
  }

  /** `select_hash_code`: where the code of a table entry begins. */
  function EntryCode(pc: nat, elems: nat, hashed: nat): nat
    requires hashed > 0
  {
    pc + SELECT_BASE + 4 * elems + hashed - 1
  }

  /** The way of `instr_print` from the instruction at `pc`: through the bodies of `IF`, `ITERATE` and `RESET
      LINEAR` and, for each entry of the table of a `SELECT`, through the code of that entry.  `None` when it
      would leave the memory, throw, or not get ahead. */
  function InstrWalk(c: Code, pc: nat): (w: Option<Walk>)
    ensures w.Some? ==> pc in w.value.trail
    decreases |c| - pc, 1, 0
  {
    var n := Length(c, pc);
    if n == 0 then None
    else if c[pc] == IF then
      if n < 6 then None else Behind([pc], ListWalk(c, pc + n, pc + Word(c, pc + 2)))
    else if c[pc] == ITER then
      if n < 8 then None else Behind([pc], ListWalk(c, pc + n, pc + Word(c, pc + 4)))
    else if c[pc] == RESET_LINEAR then
      match UntilWalk(c, pc + n, END_LINEAR)
      case None => None
      case Some(w) => Some(Walk(w.next + 1, [pc] + w.trail))
    else if c[pc] == SELECT then
      if n < SELECT_BASE || n != SELECT_BASE + 4 * Word(c, pc + 5) then None
      else
        match EntriesWalk(c, pc, Word(c, pc + 5), 0)
        case None => None
        case Some(trail) => Some(Walk(pc + Word(c, pc + 1), [pc] + trail))
    else Some(Walk(pc + n, [pc]))
  }

  /** The entries of a table from entry `i` on. */
  function EntriesWalk(c: Code, pc: nat, elems: nat, i: nat): Option<seq<nat>>
    requires pc + SELECT_BASE + 4 * elems <= |c| && i <= elems
    decreases |c| - pc, 0, elems - i
  {
    if i == elems then Some([])
    else
      var hashed := Word(c, pc + SELECT_BASE + 4 * i);
      match EntriesWalk(c, pc, elems, i + 1)
      case None => None
      case Some(rest) =>
        if hashed == 0 then Some(rest)
        else
          match UntilWalk(c, EntryCode(pc, elems, hashed), RETURN_SELECT)
          case None => None
          case Some(w) => Some(w.trail + rest)
  }

  /** The way of `instrs_print` and `instrs_print_until`. */
  function ListWalk(c: Code, pc: nat, until: nat): (w: Option<Walk>)
    ensures w.Some? ==> w.value.next == until
    decreases |c| - pc, 2, 0
  {
    if pc >= until then Some(Walk(until, []))
    else
      match InstrWalk(c, pc)
      case None => None
      case Some(w) =>
        if pc >= |c| || w.next <= pc then None else Behind(w.trail, ListWalk(c, w.next, until))
  }

  /** The way of `instrs_print_until_end_linear` and `instrs_print_until_return_select`. */
  function UntilWalk(c: Code, pc: nat, stop: Byte): Option<Walk>
    decreases |c| - pc, 2, 0
  {
    match InstrWalk(c, pc)
    case None => None
    case Some(w) =>
      if pc >= |c| then None
      else if c[pc] == stop then Some(Walk(pc, w.trail))
      else if w.next <= pc then None
      else Behind(w.trail, UntilWalk(c, w.next, stop))
  }

  // ---------------------------------------------------------------- the memory during the walk

  /** One instruction relinked `k` times over. */
  function Again(types: Types, links: Links, h: Code, k: nat): (r: Code)
    ensures |r| == |h|
  {
    if k == 0 then h else RenameOne(types, links, Again(types, links, h, k - 1))
  }

  ghost function Visits(trail: seq<nat>, x: nat): nat {
    multiset(trail)[x]
  }

  /** An instruction begins at `x`. */
  ghost predicate Sound(c: Code, x: nat) {
    Length(c, x) > 0 && (c[x] == NEW_AXIOMS ==> Length(c, x) >= NEW_AXIOMS_BASE)
  }

  ghost predicate Apart(c: Code, x: nat, y: nat) {
    x < y ==> x + Length(c, x) <= y
  }

  /** Instructions begin at these addresses and do not overlap. */
  ghost predicate Laid(c: Code, starts: set<nat>) {
    && (forall x {:trigger Sound(c, x)} :: x in starts ==> Sound(c, x))
    && (forall x, y {:trigger Apart(c, x, y)} :: x in starts && y in starts ==> Apart(c, x, y))
  }

  ghost predicate Inside(trail: seq<nat>, starts: set<nat>) {
    forall i :: 0 <= i < |trail| ==> trail[i] in starts
  }

  /** No instruction lies over address `k`. */
  ghost predicate Free(c: Code, starts: set<nat>, k: nat) {
    forall x {:trigger Length(c, x)} :: x in starts ==> !(x <= k < x + Length(c, x))
  }

  /** The instruction at `x` has been relinked as often as the walk has been there. */
  ghost predicate RelinkedAt(types: Types, links: Links, c: Code, m: Code, trail: seq<nat>, x: nat) {
    var n := Length(c, x);
    x + n <= |c| && |m| == |c| && m[x..x + n] == Again(types, links, c[x..x + n], Visits(trail, x))
  }

  /** Each instruction has been relinked as often as the walk has been there; all other bytes are as before. */
  ghost predicate Relinked(types: Types, links: Links, c: Code, m: Code, starts: set<nat>, trail: seq<nat>) {
    && |m| == |c|
    && (forall x {:trigger RelinkedAt(types, links, c, m, trail, x)} ::
          x in starts ==> RelinkedAt(types, links, c, m, trail, x))
    && (forall k {:trigger Free(c, starts, k)} :: 0 <= k < |c| && Free(c, starts, k) ==> m[k] == c[k])
  }

  lemma {:induction false} AgainAlike(types: Types, links: Links, h: Code, k: nat)
    requires h != []
    ensures Alike(h, Again(types, links, h, k), |h|)
  {
    hide RenameOne;
    if k > 0 {
      AgainAlike(types, links, h, k - 1);
      RenameOneAlike(types, links, Again(types, links, h, k - 1));
    }
  }

  /** Relinking changes neither what the instructions are nor where they are nor where they jump. */
  lemma Unmoved(types: Types, links: Links, c: Code, m: Code, starts: set<nat>, trail: seq<nat>, x: nat)
    requires Laid(c, starts) && Relinked(types, links, c, m, starts, trail) && x in starts
    ensures Sound(c, x) && |m| == |c| && Length(m, x) == Length(c, x)
    ensures Alike(c[x..], m[x..], Length(c, x))
  {
    hide Advance, Again;
    assert Sound(c, x) && RelinkedAt(types, links, c, m, trail, x);
    var n := Length(c, x);
    var h := c[x..x + n];
    AgainAlike(types, links, h, Visits(trail, x));
    forall k: nat | k < n && !Slot(c[x], k) ensures m[x..][k] == c[x..][k] {
      assert m[x..x + n][k] == h[k];
    }
    assert h[0] == c[x] && m[x..x + n][0] == m[x];
    AdvanceAlike(c[x..], m[x..], n);
  }

  /** The bytes that the walk itself reads are as before. */
  lemma WordUnmoved(c: Code, m: Code, x: nat, at: nat)
    requires |m| == |c| && x < |c| && Alike(c[x..], m[x..], Length(c, x)) && x <= at && at + 4 <= x + Length(c, x)
    requires forall k :: at - x <= k < at - x + 4 ==> !Slot(c[x], k)
    ensures Word(m, at) == Word(c, at)
  {
    forall k | at <= k < at + 4 ensures m[k] == c[k] {
      assert m[x..][k - x] == c[x..][k - x];
    }
  }

  /** One more visit. */
  lemma Visit(types: Types, links: Links, c: Code, m: Code, starts: set<nat>, trail: seq<nat>, x: nat)
    requires Laid(c, starts) && Relinked(types, links, c, m, starts, trail) && x in starts
    ensures |m| == |c| && x + Length(c, x) <= |c|
    ensures var m' := Patched(m, x, RenameOne(types, links, m[x..x + Length(c, x)]));
            Relinked(types, links, c, m', starts, trail + [x])
  {
    hide RenameOne, Length;
    assert Sound(c, x) && RelinkedAt(types, links, c, m, trail, x);
    var n := Length(c, x);
    var r := RenameOne(types, links, m[x..x + n]);
    var m' := Patched(m, x, r);
    forall y | y in starts ensures RelinkedAt(types, links, c, m', trail + [x], y) {
      assert RelinkedAt(types, links, c, m, trail, y) && Apart(c, x, y) && Apart(c, y, x);
      if y == x {
        PatchRegion(m, x, r);
      } else {
        assert m'[y..y + Length(c, y)] == m[y..y + Length(c, y)];
      }
    }
  }

  // ---------------------------------------------------------------- one instruction, in place

  lemma SubCode(c: Code, lo: nat, h: Code, t: Code)
    requires lo + |h| + |t| <= |c| && c[lo..lo + |h| + |t|] == h + t
    ensures c[lo..lo + |h|] == h && c[lo + |h|..lo + |h| + |t|] == t
  {
    assert c[lo..lo + |h|] == c[lo..lo + |h| + |t|][..|h|];
    assert c[lo + |h|..lo + |h| + |t|] == c[lo..lo + |h| + |t|][|h|..];
  }

  /** The loop over the facts of `NEW_AXIOMS`. */
  method RelinkFacts(a: array<Byte>, start: nat, end: nat, types: Types, links: Links, ghost s: Code)
    requires start + |s| == end <= a.Length && a[start..end] == s
    modifies a
    ensures a[..] == Patched(old(a[..]), start, RenameFacts(types, links, s))
  {
    hide FactEnd, RenameFacts, Patched;
    var p := start;
    ghost var done, rest := [], s;
    PatchNothing(a[..], start);
    NothingInFront(RenameFacts(types, links, s));
    while p < end
      invariant p + |rest| == end && start + |done| == p
      invariant old(a[..])[p..end] == rest && a[..] == Patched(old(a[..]), start, done)
      invariant RenameFacts(types, links, s) == done + RenameFacts(types, links, rest)
      decreases |rest|
    {
      PatchRest(old(a[..]), start, done, rest);
      assert a[..][p..end] == a[p..end];
      ghost var f, t := NextFact(types, links, rest);
      var size := FactEnd(types, a[p..end]);
      var b := LowByte(links.pred(PredicateId(a[p])));
      a[p] := b;
      FactWritten(old(a[..]), start, done, rest[0], b, f, t);
      Associate(done, [b] + f, RenameFacts(types, links, t));
      done, rest := done + ([b] + f), t;
      p := p + size;
    }
    NoFacts(types, links);
    assert rest == [] && done + [] == done;
  }

  lemma NoFacts(types: Types, links: Links)
    ensures RenameFacts(types, links, []) == []
  {
  }

  lemma NextFact(types: Types, links: Links, s: Code) returns (f: Code, t: Code)
    requires s != []
    ensures s == [s[0]] + f + t && FactEnd(types, s) == 1 + |f|
    ensures RenameFacts(types, links, s) == [LowByte(links.pred(PredicateId(s[0])))] + f + RenameFacts(types, links, t)
  {
    hide FactSize;
    var end := FactEnd(types, s);
    f, t := s[1..end], s[end..];
  }

  /** One predicate byte is written in front of unchanged fields. */
  lemma FactWritten(c: Code, start: nat, done: Code, x: Byte, b: Byte, f: Code, t: Code)
    requires start + |done| + 1 + |f| + |t| <= |c|
    requires c[start + |done|..start + |done| + 1 + |f| + |t|] == [x] + f + t
    ensures Patched(c, start, done)[start + |done| := b] == Patched(c, start, done + ([b] + f))
    ensures c[start + |done| + 1 + |f|..start + |done| + 1 + |f| + |t|] == t
  {
    var at := start + |done|;
    SubCode(c, at, [x] + f, t);
    SubCode(c, at, [x], f);
    HeadWritten(c, start, done, b, f);
  }

  lemma HeadWritten(c: Code, start: nat, done: Code, b: Byte, f: Code)
    requires start + |done| + 1 + |f| <= |c| && c[start + |done| + 1..start + |done| + 1 + |f|] == f
    ensures Patched(c, start, done)[start + |done| := b] == Patched(c, start, done + ([b] + f))
  {
    var at := start + |done|;
    assert c[at..] == [c[at]] + c[at + 1..];
    assert c[at + 1..] == f + c[at + 1 + |f|..];
  }

  /** `NEW_AXIOMS`. */
  method RelinkAxioms(a: array<Byte>, pc: nat, size: nat, types: Types, links: Links, ghost h: Code)
    requires pc + size <= a.Length && |h| == size && a[pc..pc + size] == h
    requires |h| >= NEW_AXIOMS_BASE && h[0] == NEW_AXIOMS
    modifies a
    ensures a[..] == Patched(old(a[..]), pc, RenameOne(types, links, h))
  {
    hide RenameFacts, Patched;
    ghost var c := a[..];
    var start := pc + NEW_AXIOMS_BASE;
    ghost var jump, s := h[..NEW_AXIOMS_BASE], h[NEW_AXIOMS_BASE..];
    assert h == jump + s && c[pc..pc + size] == h;
    SubCode(c, pc, jump, s);
    assert a[start..pc + size] == c[start..pc + size];
    RelinkFacts(a, start, pc + size, types, links, s);
    PatchSame(c, pc, jump);
    PatchTwice(c, pc, jump, RenameFacts(types, links, s));
  }

  lemma LinkedInPlace(types: Types, links: Links, c: Code, pc: nat, h: Code)
    requires LongEnough(h) && pc + |h| <= |c|
    ensures Patched(c, pc, RenameOne(types, links, h))[pc..pc + |h|] == RenameOne(types, links, h)
    ensures h[0] != 0x14 ==> LinkedBytes(links, h, RenameOne(types, links, h))
  {
    hide RenameOne, LinkedBytes;
    PatchRegion(c, pc, RenameOne(types, links, h));
    if h[0] != 0x14 {
      OneLinked(types, links, h);
    }
  }

  /** The ids that one instruction names are replaced. */
  method RelinkOne(a: array<Byte>, pc: nat, size: nat, types: Types, links: Links, ghost h: Code)
    requires pc + size <= a.Length && |h| == size && a[pc..pc + size] == h && LongEnough(h)
    modifies a
    ensures a[..] == Patched(old(a[..]), pc, RenameOne(types, links, h))
    ensures h[0] != 0x14 ==> LinkedBytes(links, h, a[pc..pc + size])
  {
    ghost var c := a[..];
    LinkedInPlace(types, links, c, pc, h);
    assert c[pc..pc + size] == h && a[pc] == h[0];
    if NamesPredicate(a[pc]) {
      assert a[pc + 1] == h[1];
      var id := links.pred(PredicateId(a[pc + 1]));
      a[pc + 1] := LowByte(id);
      PatchOne(c, pc, h, 1, LowByte(id));
    } else if a[pc] == RULE {
      assert a[pc..pc + size] == h;
      var id := links.rule(WordAt(a, pc + 1));
      assert forall k :: 1 <= k < 5 ==> a[pc + k] == h[k];
      a[pc + 1] := LowByte(id);
      PatchOne(c, pc, h, 1, LowByte(id));
    } else if a[pc] == NEW_AXIOMS {
      RelinkAxioms(a, pc, size, types, links, h);
    } else {
      PatchSame(c, pc, h);
    }
  }

  /** `pcounter_code_size`. */
  function WordAt(a: array<Byte>, at: nat): (w: nat)
    requires at + 4 <= a.Length
    reads a
    ensures w == Word(a[..], at)
  {
    (a[at] as int) + 0x100 * (a[at + 1] as int) + 0x1_0000 * (a[at + 2] as int) + 0x100_0000 * (a[at + 3] as int)
  }

  // ---------------------------------------------------------------- the walk, in place

  /** What the walk reads of an instruction, for its kind. */
  lemma Measured(c: Code, pc: nat)
    requires Length(c, pc) > 0
    ensures NamesPredicate(c[pc]) ==> Length(c, pc) >= 2
    ensures c[pc] == RULE ==> Length(c, pc) >= 5
    ensures c[pc] == SELECT ==> Length(c, pc) >= SELECT_BASE
  {
  }

  lemma SameSize(types: Types, links: Links, c: Code, m: Code, starts: set<nat>, trail: seq<nat>)
    requires Relinked(types, links, c, m, starts, trail)
    ensures |m| == |c|
  {
  }

  /** In the middle of the walk an instruction reads as before, but for the ids that it names. */
  lemma InPlace(types: Types, links: Links, c: Code, m: Code, starts: set<nat>, trail: seq<nat>, pc: nat)
    requires Laid(c, starts) && Relinked(types, links, c, m, starts, trail) && pc in starts
    ensures |m| == |c| && Length(m, pc) == Length(c, pc) > 0 && m[pc] == c[pc]
    ensures LongEnough(m[pc..pc + Length(c, pc)])
    ensures c[pc] == IF && Length(c, pc) >= 6 ==> Word(m, pc + 2) == Word(c, pc + 2)
    ensures c[pc] == ITER && Length(c, pc) >= 8 ==> Word(m, pc + 4) == Word(c, pc + 4)
    ensures c[pc] == SELECT ==>
              Length(c, pc) >= SELECT_BASE && Word(m, pc + 1) == Word(c, pc + 1) && Word(m, pc + 5) == Word(c, pc + 5)
  {
    hide Relinked, Laid, Advance;
    Unmoved(types, links, c, m, starts, trail, pc);
    Measured(c, pc);
    var n := Length(c, pc);
    assert m[pc] == m[pc..][0] && c[pc] == c[pc..][0];
    assert m[pc..pc + n][0] == m[pc];
    if c[pc] == IF && n >= 6 {
      WordUnmoved(c, m, pc, pc + 2);
    } else if c[pc] == ITER && n >= 8 {
      WordUnmoved(c, m, pc, pc + 4);
    } else if c[pc] == SELECT {
      WordUnmoved(c, m, pc, pc + 1);
      WordUnmoved(c, m, pc, pc + 5);
    }
  }

  /** And so does the table of a `SELECT`. */
  lemma EntryInPlace(types: Types, links: Links, c: Code, m: Code, starts: set<nat>, trail: seq<nat>, pc: nat, i: nat)
    requires Laid(c, starts) && Relinked(types, links, c, m, starts, trail) && pc in starts
    requires pc < |c| && c[pc] == SELECT && SELECT_BASE + 4 * i + 4 <= Length(c, pc)
    ensures |m| == |c| && Word(m, pc + SELECT_BASE + 4 * i) == Word(c, pc + SELECT_BASE + 4 * i)
  {
    hide Relinked, Laid, Advance;
    Unmoved(types, links, c, m, starts, trail, pc);
    WordUnmoved(c, m, pc, pc + SELECT_BASE + 4 * i);
  }

  /** The instruction at `pc` itself, without what is nested in it. */
  method RelinkFront(a: array<Byte>, pc: nat, types: Types, links: Links, ghost c: Code, ghost starts: set<nat>,
      ghost before: seq<nat>)
    returns (op: Byte, size: nat)
    requires Laid(c, starts) && Relinked(types, links, c, a[..], starts, before) && pc in starts
    modifies a
    ensures a.Length == |c| && 0 < size == Length(c, pc) && op == c[pc]
    ensures Relinked(types, links, c, a[..], starts, before + [pc])
  {
    hide Relinked, Laid, Advance, RenameOne, Length, LongEnough;
    InPlace(types, links, c, a[..], starts, before, pc);
    op, size := a[pc], Length(a[..], pc);
    assert a[..][pc..pc + size] == a[pc..pc + size];
    Visit(types, links, c, a[..], starts, before, pc);
    RelinkOne(a, pc, size, types, links, a[pc..pc + size]);
  }

  /** `instr_print` while linking: every instruction on its way is relinked each time that it comes there. */
  method InstrPrint(a: array<Byte>, pc: nat, types: Types, links: Links, ghost c: Code, ghost starts: set<nat>,
      ghost before: seq<nat>)
    returns (next: nat)
    requires InstrWalk(c, pc).Some? && Inside(InstrWalk(c, pc).value.trail, starts)
    requires Laid(c, starts) && Relinked(types, links, c, a[..], starts, before)
    modifies a
    ensures next == InstrWalk(c, pc).value.next
    ensures Relinked(types, links, c, a[..], starts, before + InstrWalk(c, pc).value.trail)
    decreases |c| - pc, 1, 0
  {
    hide Relinked, Laid, Inside, Advance, Length, Word, InstrWalk, EntriesWalk, ListWalk, UntilWalk;
    ghost var more := WalkedOn(c, pc, starts, before);
    var op, size := RelinkFront(a, pc, types, links, c, starts, before);
    InPlace(types, links, c, a[..], starts, before + [pc], pc);
    if op == IF || op == ITER {
      var until := pc + WordAt(a, pc + if op == IF then 2 else 4);
      next := InstrsPrint(a, pc + size, until, types, links, c, starts, before + [pc]);
    } else if op == RESET_LINEAR {
      var last := InstrsPrintUntil(a, pc + size, END_LINEAR, types, links, c, starts, before + [pc]);
      next := last + 1;
    } else if op == SELECT {
      InstrsPrintEntries(a, pc, WordAt(a, pc + 5), types, links, c, starts, before + [pc]);
      InPlace(types, links, c, a[..], starts, before + [pc] + more, pc);
      next := pc + WordAt(a, pc + 1);
    } else {
      next := pc + size;
      assert before + [pc] + [] == before + [pc];
    }
  }

  /** What is left of the way behind its first step: the bodies of `IF` (0x60), `ITERATE` (0xA0) and `RESET LINEAR`
      (0x0E, up to 0x0F), and the code of the entries of a `SELECT` (0x0A). */
  lemma WalkedOn(c: Code, pc: nat, starts: set<nat>, before: seq<nat>) returns (more: seq<nat>)
    requires InstrWalk(c, pc).Some? && Inside(InstrWalk(c, pc).value.trail, starts)
    ensures pc in starts && 0 < Length(c, pc) && Inside(more, starts)
    ensures InstrWalk(c, pc).value.trail == [pc] + more
    ensures before + InstrWalk(c, pc).value.trail == before + [pc] + more
    ensures var n, next := Length(c, pc), InstrWalk(c, pc).value.next;
            if c[pc] == 0x60 then n >= 6 && ListWalk(c, pc + n, pc + Word(c, pc + 2)) == Some(Walk(next, more))
            else if c[pc] == 0xA0 then n >= 8 && ListWalk(c, pc + n, pc + Word(c, pc + 4)) == Some(Walk(next, more))
            else if c[pc] == 0x0E then next >= 1 && UntilWalk(c, pc + n, 0x0F) == Some(Walk(next - 1, more))
            else if c[pc] == 0x0A then
              n >= 9 && n == 9 + 4 * Word(c, pc + 5) && next == pc + Word(c, pc + 1)
              && EntriesWalk(c, pc, Word(c, pc + 5), 0) == Some(more)
            else more == [] && next == pc + n
  {
    hide EntriesWalk, ListWalk, UntilWalk, Length;
    var trail := InstrWalk(c, pc).value.trail;
    more := trail[1..];
    assert trail == [pc] + more;
    InsideParts([pc], more, starts);
    assert [pc][0] in starts;
    Associate(before, [pc], more);
  }

  /** The loop over the table of a `SELECT`. */
  method InstrsPrintEntries(a: array<Byte>, pc: nat, elems: nat, types: Types, links: Links, ghost c: Code,
      ghost starts: set<nat>, ghost before: seq<nat>)
    requires pc in starts && Length(c, pc) == SELECT_BASE + 4 * elems && c[pc] == SELECT
    requires EntriesWalk(c, pc, elems, 0).Some? && Inside(EntriesWalk(c, pc, elems, 0).value, starts)
    requires Laid(c, starts) && Relinked(types, links, c, a[..], starts, before)
    modifies a
    ensures Relinked(types, links, c, a[..], starts, before + EntriesWalk(c, pc, elems, 0).value)
    decreases |c| - pc, 0, 0
  {
    hide Relinked, Laid, UntilWalk, InstrWalk;
    ghost var done := before;
    SameSize(types, links, c, a[..], starts, before);
    ghost var rest := EntriesWalk(c, pc, elems, 0).value;
    for i := 0 to elems
      invariant EntriesWalk(c, pc, elems, i) == Some(rest) && Inside(rest, starts)
      invariant |c| == a.Length && Relinked(types, links, c, a[..], starts, done)
      invariant before + EntriesWalk(c, pc, elems, 0).value == done + rest
    {
      EntryInPlace(types, links, c, a[..], starts, done, pc, i);
      var hashed := WordAt(a, pc + SELECT_BASE + 4 * i);
      if hashed != 0 {
        var code := EntryCode(pc, elems, hashed);
        ghost var w, later := UntilWalk(c, code, RETURN_SELECT).value, EntriesWalk(c, pc, elems, i + 1).value;
        InsideParts(w.trail, later, starts);
        var last := InstrsPrintUntil(a, code, RETURN_SELECT, types, links, c, starts, done);
        Associate(done, w.trail, later);
        done, rest := done + w.trail, later;
      }
    }
    assert rest == [] && done + [] == done;
  }

  lemma InsideParts(a: seq<nat>, b: seq<nat>, starts: set<nat>)
    requires Inside(a + b, starts)
    ensures Inside(a, starts) && Inside(b, starts)
  {
    forall i | 0 <= i < |a| ensures a[i] in starts {
      assert a[i] == (a + b)[i];
    }
    forall i | 0 <= i < |b| ensures b[i] in starts {
      assert b[i] == (a + b)[|a| + i];
    }
  }

  /** `instrs_print` and `instrs_print_until`. */
  method InstrsPrint(a: array<Byte>, code: nat, until: nat, types: Types, links: Links, ghost c: Code,
      ghost starts: set<nat>, ghost before: seq<nat>)
    returns (end: nat)
    requires ListWalk(c, code, until).Some? && Inside(ListWalk(c, code, until).value.trail, starts)
    requires Laid(c, starts) && Relinked(types, links, c, a[..], starts, before)
    modifies a
    ensures end == until == ListWalk(c, code, until).value.next
    ensures Relinked(types, links, c, a[..], starts, before + ListWalk(c, code, until).value.trail)
    decreases |c| - code, 2, 0
  {
    hide Relinked, Laid, InstrWalk;
    var pc := code;
    ghost var done, rest := before, ListWalk(c, code, until).value.trail;
    while pc < until
      invariant code <= pc && ListWalk(c, pc, until) == Some(Walk(until, rest)) && Inside(rest, starts)
      invariant Relinked(types, links, c, a[..], starts, done)
      invariant before + ListWalk(c, code, until).value.trail == done + rest
      decreases until - pc
    {
      ghost var w := InstrWalk(c, pc).value;
      ghost var later := ListWalk(c, w.next, until).value.trail;
      InsideParts(w.trail, later, starts);
      pc := InstrPrint(a, pc, types, links, c, starts, done);
      Associate(done, w.trail, later);
      done, rest := done + w.trail, later;
    }
    assert rest == [] && done + [] == done;
    end := until;
  }

  /** `instrs_print_until_end_linear` and `instrs_print_until_return_select`. */
  method InstrsPrintUntil(a: array<Byte>, code: nat, stop: Byte, types: Types, links: Links, ghost c: Code,
      ghost starts: set<nat>, ghost before: seq<nat>)
    returns (last: nat)
    requires UntilWalk(c, code, stop).Some? && Inside(UntilWalk(c, code, stop).value.trail, starts)
    requires Laid(c, starts) && Relinked(types, links, c, a[..], starts, before)
    modifies a
    ensures last == UntilWalk(c, code, stop).value.next
    ensures Relinked(types, links, c, a[..], starts, before + UntilWalk(c, code, stop).value.trail)
    decreases |c| - code, 2, 0
  {
    hide Relinked, Laid, InstrWalk;
    var pc := code;
    ghost var done, rest := before, UntilWalk(c, code, stop).value.trail;
    while true
      invariant code <= pc && UntilWalk(c, pc, stop) == Some(Walk(UntilWalk(c, code, stop).value.next, rest))
      invariant Inside(rest, starts) && Relinked(types, links, c, a[..], starts, done)
      invariant before + UntilWalk(c, code, stop).value.trail == done + rest
      decreases |c| - pc
    {
      ghost var w := InstrWalk(c, pc).value;
      assert pc in starts by {
        FirstInside(c, pc, stop, starts);
      }
      if c[pc] != stop {
        InsideParts(w.trail, UntilWalk(c, w.next, stop).value.trail, starts);
        Associate(done, w.trail, UntilWalk(c, w.next, stop).value.trail);
      }
      var next := InstrPrint(a, pc, types, links, c, starts, done);
      done := done + w.trail;
      InPlace(types, links, c, a[..], starts, done, pc);
      if a[pc] == stop {
        return pc;
      }
      rest := UntilWalk(c, w.next, stop).value.trail;
      pc := next;
    }
  }

  /** The code of one table entry: it begins `hashed - 1` bytes behind the table and goes up to `RETURN SELECT` (0x0B). */
  lemma EntryWalked(c: Code, pc: nat, elems: nat, i: nat)
    requires pc + 9 + 4 * elems <= |c| && i < elems && EntriesWalk(c, pc, elems, i).Some?
    ensures EntriesWalk(c, pc, elems, i + 1).Some?
    ensures var hashed, rest := Word(c, pc + 9 + 4 * i), EntriesWalk(c, pc, elems, i + 1).value;
            if hashed == 0 then EntriesWalk(c, pc, elems, i) == Some(rest)
            else
              var code := pc + 9 + 4 * elems + hashed - 1;
              UntilWalk(c, code, 0x0B).Some?
              && EntriesWalk(c, pc, elems, i) == Some(UntilWalk(c, code, 0x0B).value.trail + rest)
  {
    hide UntilWalk;
  }

  lemma FirstInside(c: Code, pc: nat, stop: Byte, starts: set<nat>)
    requires UntilWalk(c, pc, stop).Some? && Inside(UntilWalk(c, pc, stop).value.trail, starts)
    ensures pc in starts
  {
    hide InstrWalk;
    var w := InstrWalk(c, pc).value;
    assert pc in w.trail && w.trail <= UntilWalk(c, pc, stop).value.trail;
  }

  // ---------------------------------------------------------------- a stretch of code

  /** `trail` is the addresses of the instructions from `pc` on, one behind the other and exactly up to `until`. */
  ghost predicate Tiled(c: Code, pc: nat, until: nat, trail: seq<nat>)
    decreases |trail|
  {
    if trail == [] then pc == until
    else trail[0] == pc && Sound(c, pc) && Tiled(c, pc + Length(c, pc), until, trail[1..])
  }

  lemma {:induction false} TiledCat(c: Code, p: nat, q: nat, r: nat, a: seq<nat>, b: seq<nat>)
    requires Tiled(c, p, q, a) && Tiled(c, q, r, b)
    ensures Tiled(c, p, r, a + b)
    decreases |a|
  {
    hide Sound, Length;
    if a == [] {
      NothingInFront(b);
    } else {
      TiledCat(c, p + Length(c, p), q, r, a[1..], b);
      assert (a + b)[1..] == a[1..] + b;
    }
  }

  /** The instructions lie between the two ends and do not overlap. */
  lemma {:induction false} TiledBounds(c: Code, pc: nat, until: nat, trail: seq<nat>, i: nat, j: nat)
    requires Tiled(c, pc, until, trail) && i <= j < |trail|
    ensures Sound(c, trail[i]) && pc <= trail[i] && trail[j] + Length(c, trail[j]) <= until
    ensures i < j ==> trail[i] + Length(c, trail[i]) <= trail[j]
    decreases |trail|
  {
    hide Length;
    if i > 0 {
      TiledBounds(c, pc + Length(c, pc), until, trail[1..], i - 1, j - 1);
    } else if j > 0 {
      TiledBounds(c, pc + Length(c, pc), until, trail[1..], j - 1, j - 1);
    } else {
      TiledEnd(c, pc + Length(c, pc), until, trail[1..]);
    }
  }

  lemma {:induction false} TiledEnd(c: Code, pc: nat, until: nat, trail: seq<nat>)
    requires Tiled(c, pc, until, trail)
    ensures pc <= until
    decreases |trail|
  {
    hide Length;
    if trail != [] {
      TiledEnd(c, pc + Length(c, pc), until, trail[1..]);
    }
  }

  ghost function Members(trail: seq<nat>): set<nat> {
    set x | x in trail
  }

  lemma TiledLaid(c: Code, pc: nat, until: nat, trail: seq<nat>)
    requires Tiled(c, pc, until, trail)
    ensures Laid(c, Members(trail)) && NoDup(trail)
  {
    hide Length;
    forall x | x in trail ensures Sound(c, x) {
      var i :| 0 <= i < |trail| && trail[i] == x;
      TiledBounds(c, pc, until, trail, i, i);
    }
    forall x, y | x in trail && y in trail ensures Apart(c, x, y) {
      var i :| 0 <= i < |trail| && trail[i] == x;
      var j :| 0 <= j < |trail| && trail[j] == y;
      if i <= j {
        TiledBounds(c, pc, until, trail, i, j);
      } else {
        TiledBounds(c, pc, until, trail, j, i);
      }
    }
    forall i, j | 0 <= i < j < |trail| ensures Differ(trail, i, j) {
      TiledBounds(c, pc, until, trail, i, j);
    }
  }

  /** The instructions of the linear decoding of a stretch of memory lie side by side. */
  lemma {:induction false} DecodedTiled(types: Types, c: Code, pc: nat, until: nat)
    requires pc <= until <= |c| && Decode(types, c[pc..until]).Some?
    ensures Tiled(c, pc, until, Starts(c[pc..until], pc))
    decreases until - pc
  {
    hide Advance, DecodeOne, Length;
    var s := c[pc..until];
    if s == [] {
      NothingToRead();
    } else {
      var h, t := SplitHead(types, s, Decode(types, s).value);
      FirstLength(types, c, pc, until, h, t);
      StartsHead(h, t, pc) by { OneIsWhole(types, h); }
      DecodedTiled(types, c, pc + |h|, until);
    }
  }

  lemma FirstLength(types: Types, c: Code, pc: nat, until: nat, h: Code, t: Code)
    requires pc <= until <= |c| && c[pc..until] == h + t && IsOne(types, h)
    ensures Sound(c, pc) && Length(c, pc) == |h| && c[pc..pc + |h|] == h && c[pc + |h|..until] == t
  {
    hide Advance;
    assert c[pc..] == c[pc..until] + c[until..];
    Associate(h, t, c[until..]);
    AdvanceOver(types, h, t + c[until..]);
    OneIsWhole(types, h);
    assert c[pc] == h[0] by { assert c[pc] == c[pc..][0]; }
    assert c[pc..pc + |h|] == c[pc..until][..|h|] && c[pc + |h|..until] == c[pc..until][|h|..];
  }

  /** Every instruction has become what relinking it once makes of it. */
  ghost predicate OnceOrFixed(types: Types, links: Links, c: Code, starts: set<nat>, trail: seq<nat>) {
    forall x {:trigger FixedAt(types, links, c, trail, x)} :: x in starts ==> FixedAt(types, links, c, trail, x)
  }

  ghost predicate FixedAt(types: Types, links: Links, c: Code, trail: seq<nat>, x: nat) {
    var n := Length(c, x);
    x + n <= |c| && Again(types, links, c[x..x + n], Visits(trail, x)) == RenameOne(types, links, c[x..x + n])
  }

  /** Each instruction visited once is enough. */
  lemma VisitedOnce(types: Types, links: Links, c: Code, trail: seq<nat>)
    requires Laid(c, Members(trail)) && NoDup(trail)
    ensures OnceOrFixed(types, links, c, Members(trail), trail)
  {
    hide RenameOne, Length;
    forall x | x in trail ensures FixedAt(types, links, c, trail, x) {
      assert Sound(c, x);
      OneVisit(trail, x);
      var h := c[x..x + Length(c, x)];
      assert Again(types, links, h, 1) == RenameOne(types, links, Again(types, links, h, 0));
    }
  }

  lemma {:induction false} OneVisit(trail: seq<nat>, x: nat)
    requires NoDup(trail) && x in trail
    ensures Visits(trail, x) == 1
  {
    assert trail == [trail[0]] + trail[1..];
    NoDupTail(trail);
    if trail[0] != x {
      OneVisit(trail[1..], x);
    }
  }

  /** What the walk leaves is what the linear sweep makes of the code, exactly when every instruction has
      been visited once or further visits do not matter. */
  lemma {:induction false} SweptExactly(types: Types, links: Links, c: Code, m: Code, trail: seq<nat>, pc: nat,
      until: nat)
    requires pc <= until <= |c| && Decode(types, c[pc..until]).Some? && |m| == |c|
    requires forall x :: x in Starts(c[pc..until], pc) ==> RelinkedAt(types, links, c, m, trail, x)
    ensures m[pc..until] == Rename(types, links, c[pc..until]) <==>
            forall x :: x in Starts(c[pc..until], pc) ==> FixedAt(types, links, c, trail, x)
    decreases until - pc
  {
    hide Advance, DecodeOne, Length, RenameOne, FixedAt, RelinkedAt, Decode, Starts, Rename;
    var s := c[pc..until];
    if s == [] {
      NoCode(types, links, pc);
      assert m[pc..until] == [];
    } else {
      var h, t := SplitHead(types, s, Decode(types, s).value);
      FirstLength(types, c, pc, until, h, t);
      Head(types, links, h, t, pc);
      SweptExactly(types, links, c, m, trail, pc + |h|, until);
      assert pc in Starts(s, pc);
      HeadSwept(types, links, c, m, trail, pc, until, h, t);
    }
  }

  lemma NoCode(types: Types, links: Links, pc: nat)
    ensures Starts([], pc) == [] && Rename(types, links, []) == []
  {
    NothingToRead();
  }

  lemma HeadSwept(types: Types, links: Links, c: Code, m: Code, trail: seq<nat>, pc: nat, until: nat, h: Code, t: Code)
    requires pc + |h| + |t| == until <= |c| == |m| && Length(c, pc) == |h| && c[pc..pc + |h|] == h
    requires RelinkedAt(types, links, c, m, trail, pc)
    ensures m[pc..until] == RenameOne(types, links, h) + Rename(types, links, t) <==>
            FixedAt(types, links, c, trail, pc) && m[pc + |h|..until] == Rename(types, links, t)
  {
    hide RenameOne, Rename, Again;
    var r, q := RenameOne(types, links, h), Rename(types, links, t);
    assert m[pc..until] == m[pc..pc + |h|] + m[pc + |h|..until];
    if m[pc..until] == r + q {
      assert m[pc..pc + |h|] == m[pc..until][..|h|] == r;
      assert m[pc + |h|..until] == m[pc..until][|h|..] == q;
    }
  }

  lemma {:induction false} TiledStarts(c: Code, pc: nat, until: nat, trail: seq<nat>)
    requires Tiled(c, pc, until, trail) && until <= |c|
    ensures pc <= until && Starts(c[pc..until], pc) == trail
    decreases |trail|
  {
    hide Advance;
    TiledEnd(c, pc, until, trail);
    var s := c[pc..until];
    if trail == [] {
      assert s == [];
      NothingToRead();
    } else {
      var n := Length(c, pc);
      TiledEnd(c, pc + n, until, trail[1..]);
      TiledStarts(c, pc + n, until, trail[1..]);
      assert c[pc..][0] == c[pc] == s[0];
      AdvanceAlike(c[pc..], s, n);
      assert s[n..] == c[pc + n..until];
      assert trail == [pc] + trail[1..];
    }
  }

  /** The walk leaves every instruction where it was. */
  lemma {:induction false} TiledKept(types: Types, links: Links, c: Code, m: Code, starts: set<nat>, trail: seq<nat>,
      pc: nat, until: nat, tiles: seq<nat>)
    requires Laid(c, starts) && Relinked(types, links, c, m, starts, trail)
    requires Tiled(c, pc, until, tiles) && Inside(tiles, starts)
    ensures Tiled(m, pc, until, tiles)
    decreases |tiles|
  {
    hide Laid, Relinked, Length;
    if tiles != [] {
      assert tiles[0] in starts;
      Unmoved(types, links, c, m, starts, trail, pc);
      assert m[pc] == m[pc..][0] && c[pc] == c[pc..][0];
      InsideParts([pc], tiles[1..], starts) by { assert tiles == [pc] + tiles[1..]; }
      TiledKept(types, links, c, m, starts, trail, pc + Length(c, pc), until, tiles[1..]);
    }
  }

  /** An instruction other than `NEW_AXIOMS` that the walk has met once, byte by byte. */
  ghost predicate LinkedOnce(links: Links, c: Code, m: Code, x: nat) {
    var n := Length(c, x);
    x + n <= |c| && |m| == |c| && (n > 0 && c[x] != 0x14 ==> LinkedBytes(links, c[x..x + n], m[x..x + n]))
  }

  lemma MetOnce(types: Types, links: Links, c: Code, m: Code, starts: set<nat>, trail: seq<nat>)
    requires Laid(c, starts) && Relinked(types, links, c, m, starts, trail)
    ensures forall x :: x in starts && Visits(trail, x) == 1 ==> LinkedOnce(links, c, m, x)
  {
    hide RenameOne, Length, LinkedBytes;
    forall x | x in starts && Visits(trail, x) == 1 ensures LinkedOnce(links, c, m, x) {
      assert RelinkedAt(types, links, c, m, trail, x) && Sound(c, x);
      var h := c[x..x + Length(c, x)];
      TwiceIs(types, links, h);
      Measured(c, x);
      if c[x] != 0x14 {
        OneLinked(types, links, h);
      }
    }
  }

  /** The memory after a walk over a stretch of code, and after the linear sweep over it. */
  lemma StretchSwept(types: Types, links: Links, c: Code, m: Code, trail: seq<nat>, code: nat, until: nat)
    requires code <= until <= |c| && Decode(types, c[code..until]).Some?
    requires Relinked(types, links, c, m, Members(Starts(c[code..until], code)), trail)
    ensures m == Patched(c, code, Rename(types, links, c[code..until])) <==>
            OnceOrFixed(types, links, c, Members(Starts(c[code..until], code)), trail)
    ensures |m| == |c| && m[..code] == c[..code] && m[until..] == c[until..]
  {
    hide Advance, Length, Decode, Starts, Rename, RenameOne, FixedAt;
    var s := c[code..until];
    var tiles := Starts(s, code);
    DecodedTiled(types, c, code, until);
    forall k | 0 <= k < |c| && !(code <= k < until) ensures m[k] == c[k] {
      OutsideFree(c, code, until, tiles, k);
    }
    SweptExactly(types, links, c, m, trail, code, until);
    assert m == m[..code] + m[code..until] + m[until..];
    PatchRegion(c, code, Rename(types, links, s));
  }

  lemma OutsideFree(c: Code, code: nat, until: nat, tiles: seq<nat>, k: nat)
    requires Tiled(c, code, until, tiles) && !(code <= k < until)
    ensures Free(c, Members(tiles), k)
  {
    hide Length;
    forall x | x in Members(tiles) ensures !(x <= k < x + Length(c, x)) {
      var i :| 0 <= i < |tiles| && tiles[i] == x;
      TiledBounds(c, code, until, tiles, i, i);
    }
  }

  lemma NotYet(types: Types, links: Links, c: Code, starts: set<nat>)
    requires Laid(c, starts)
    ensures Relinked(types, links, c, c, starts, [])
  {
    hide Length;
    forall x | x in starts ensures RelinkedAt(types, links, c, c, [], x) {
      assert Sound(c, x);
    }
  }

  /** Relinking a stretch of code in memory, whatever its jumps and tables.  Every instruction is relinked as
      often as the walk comes to it, stays where it is, and nothing else changes.  The result is the linear
      renaming exactly when no instruction is missed or met again, or it does not matter; then it decodes to
      the original instructions with every id replaced by its linker id exactly when all linker ids fit.
      `LinkedOnce` says what the bytes of the instructions are that are met once. */
  method Relink(a: array<Byte>, code: nat, until: nat, types: Types, links: Links, ghost types': Types)
    returns (ghost trail: seq<nat>)
    requires code <= until <= a.Length && Decode(types, a[code..until]).Some? && SameFields(types, types', links)
    requires ListWalk(a[..], code, until).Some?
    requires Inside(ListWalk(a[..], code, until).value.trail, Members(Starts(a[code..until], code)))
    modifies a
    ensures trail == ListWalk(old(a[..]), code, until).value.trail
    ensures Relinked(types, links, old(a[..]), a[..], Members(Starts(old(a[code..until]), code)), trail)
    ensures forall x :: x in Starts(old(a[code..until]), code) && Visits(trail, x) == 1 ==>
              LinkedOnce(links, old(a[..]), a[..], x)
    ensures a[..code] == old(a[..code]) && a[until..] == old(a[until..])
    ensures Starts(a[code..until], code) == Starts(old(a[code..until]), code)
    ensures var exact := OnceOrFixed(types, links, old(a[..]), Members(Starts(old(a[code..until]), code)), trail);
            var before := Decode(types, old(a[code..until]));
            && before.Some?
            && (a[code..until] == Rename(types, links, old(a[code..until])) <==> exact)
            && (exact ==> (Decode(types', a[code..until]) == Some(RenameInstrs(links, before.value)) <==>
                             AllFit(links, before.value)))
  {
    hide Advance, Length, Decode, Starts, Rename, RenameOne, FixedAt, Relinked, Laid, OnceOrFixed, ListWalk, AllFit;
    hide LinkedOnce, Visits;
    ghost var c, s := a[..], a[code..until];
    assert c[code..until] == s;
    ghost var tiles := Starts(s, code);
    DecodedTiled(types, c, code, until);
    TiledLaid(c, code, until, tiles);
    NotYet(types, links, c, Members(tiles));
    trail := ListWalk(c, code, until).value.trail;
    NothingInFront(trail);
    var end := InstrsPrint(a, code, until, types, links, c, Members(tiles), []);
    StretchSwept(types, links, c, a[..], trail, code, until);
    MetOnce(types, links, c, a[..], Members(tiles), trail);
    MembersInside(tiles);
    TiledKept(types, links, c, a[..], Members(tiles), trail, code, until, tiles);
    TiledStarts(a[..], code, until, tiles);
    RelinkingIsRenaming(types, types', links, s, Decode(types, s).value, code);
    PatchRegion(c, code, Rename(types, links, s));
    assert a[..][code..until] == a[code..until] && a[..code] == a[..][..code] && a[until..] == a[..][until..];
  }

  lemma MembersInside(trail: seq<nat>)
    ensures Inside(trail, Members(trail))
  {
  }

  // ---------------------------------------------------------------- code without tables

  /** The instruction at `pc` is no `SELECT` and what is nested in it fills it exactly. */
  ghost predicate Nested(c: Code, pc: nat)
    decreases |c| - pc, 0
  {
    InstrWalk(c, pc).Some? && pc < |c| && Sound(c, pc) &&
    var n, next := Length(c, pc), InstrWalk(c, pc).value.next;
    && c[pc] != SELECT
    && (c[pc] == IF || c[pc] == ITER || c[pc] == RESET_LINEAR ==> NestedList(c, pc + n, next))
  }

  /** The instructions from `pc` on fill the memory exactly up to `until`. */
  ghost predicate NestedList(c: Code, pc: nat, until: nat)
    decreases |c| - pc, 1
  {
    pc == until ||
    (Nested(c, pc) && pc < InstrWalk(c, pc).value.next <= until && NestedList(c, InstrWalk(c, pc).value.next, until))
  }

  /** Well-nested code: the walk comes to each instruction of the linear decoding once and in order. */
  lemma {:induction false} NestedWalk(c: Code, pc: nat)
    requires Nested(c, pc)
    ensures Tiled(c, pc, InstrWalk(c, pc).value.next, InstrWalk(c, pc).value.trail)
    decreases |c| - pc, 1
  {
    hide Length, ListWalk, UntilWalk, EntriesWalk, NestedList, InstrWalk;
    var n := Length(c, pc);
    var w := InstrWalk(c, pc).value;
    var more := WalkedOn(c, pc, Members(w.trail), []) by { MembersInside(w.trail); }
    assert w.trail[1..] == more;
    if c[pc] == IF || c[pc] == ITER {
      NestedListWalk(c, pc + n, w.next);
    } else if c[pc] == RESET_LINEAR {
      NestedUntilWalk(c, pc + n, w.next);
    }
  }

  lemma {:induction false} NestedListWalk(c: Code, pc: nat, until: nat)
    requires NestedList(c, pc, until)
    ensures ListWalk(c, pc, until).Some? && Tiled(c, pc, until, ListWalk(c, pc, until).value.trail)
    decreases |c| - pc, 2
  {
    hide InstrWalk, Tiled;
    if pc == until {
      NoTiles(c, pc);
    } else {
      var w := InstrWalk(c, pc).value;
      NestedWalk(c, pc);
      NestedListWalk(c, w.next, until);
      TiledCat(c, pc, w.next, until, w.trail, ListWalk(c, w.next, until).value.trail);
    }
  }

  lemma NoTiles(c: Code, pc: nat)
    ensures Tiled(c, pc, pc, [])
  {
  }

  lemma {:induction false} NestedUntilWalk(c: Code, pc: nat, until: nat)
    requires NestedList(c, pc, until) && UntilWalk(c, pc, END_LINEAR).Some?
    requires UntilWalk(c, pc, END_LINEAR).value.next + 1 == until
    ensures Tiled(c, pc, until, UntilWalk(c, pc, END_LINEAR).value.trail)
    decreases |c| - pc, 2
  {
    hide InstrWalk, Tiled, Length;
    var w := InstrWalk(c, pc).value;
    if pc == until {
      UntilAhead(c, pc);
    } else if c[pc] == END_LINEAR {
      NestedWalk(c, pc);
    } else {
      NestedWalk(c, pc);
      NestedUntilWalk(c, w.next, until);
      TiledCat(c, pc, w.next, until, w.trail, UntilWalk(c, w.next, END_LINEAR).value.trail);
    }
  }

  /** The walk up to an instruction ends at or behind where it begins. */
  lemma {:induction false} UntilAhead(c: Code, pc: nat)
    requires UntilWalk(c, pc, END_LINEAR).Some?
    ensures UntilWalk(c, pc, END_LINEAR).value.next >= pc
    decreases |c| - pc
  {
    hide InstrWalk;
    if c[pc] != END_LINEAR {
      UntilAhead(c, InstrWalk(c, pc).value.next);
    }
  }

  /** So relinking well-nested code is the linear renaming, whatever the linker ids are. */
  lemma NestedOnce(types: Types, links: Links, c: Code, code: nat, until: nat)
    requires code <= until <= |c| && Decode(types, c[code..until]).Some? && NestedList(c, code, until)
    ensures ListWalk(c, code, until) == Some(Walk(until, Starts(c[code..until], code)))
    ensures OnceOrFixed(types, links, c, Members(Starts(c[code..until], code)), Starts(c[code..until], code))
  {
    hide Advance, Length, Decode, Starts, NestedList, ListWalk, Tiled, Laid, OnceOrFixed, NoDup;
    NestedListWalk(c, code, until);
    var trail := ListWalk(c, code, until).value.trail;
    TiledStarts(c, code, until, trail);
    TiledLaid(c, code, until, trail);
    VisitedOnce(types, links, c, trail);
  }

  // ---------------------------------------------------------------- code that is met twice

  /** All linker ids fit, and no two predicates or rules share one. */
  ghost predicate GoodLinks(links: Links) {
    && (forall p: nat {:trigger links.pred(p)} :: p < 0x80 ==> links.pred(p) < 0x80)
    && (forall p: nat, q: nat {:trigger links.pred(p), links.pred(q)} ::
          p < 0x80 && q < 0x80 && links.pred(p) == links.pred(q) ==> p == q)
    && (forall r: nat {:trigger links.rule(r)} :: links.rule(r) / 0x100 == r / 0x100)
    && (forall r: nat, q: nat {:trigger links.rule(r), links.rule(q)} :: links.rule(r) == links.rule(q) ==> r == q)
  }

  /** Relinking the facts of `NEW_AXIOMS` again changes nothing exactly when their predicates keep their ids. */
  lemma {:induction false} FactsTwice(types: Types, links: Links, s: Code, facts: seq<Fact>)
    requires GoodLinks(links) && DecodeFacts(types, s) == Some(facts)
    ensures RenameFacts(types, links, RenameFacts(types, links, s)) == RenameFacts(types, links, s) <==>
            RenamedFacts(links, facts) == facts
    decreases |s|
  {
    if s != [] {
      var f, rest := SplitFact(types, s, facts);
      FactsTwice(types, links, rest, facts[1..]);
      OneFactTwice(types, links, s[0], f, rest, facts);
    }
  }

  lemma OneFactTwice(types: Types, links: Links, b: Byte, f: Code, rest: Code, facts: seq<Fact>)
    requires GoodLinks(links) && FactSize(types, [b] + f + rest) == Some(|f|)
    requires facts != [] && facts[0] == Fact(PredicateId(b), f)
    requires RenameFacts(types, links, RenameFacts(types, links, rest)) == RenameFacts(types, links, rest) <==>
             RenamedFacts(links, facts[1..]) == facts[1..]
    ensures var s := [b] + f + rest;
            RenameFacts(types, links, RenameFacts(types, links, s)) == RenameFacts(types, links, s) <==>
            RenamedFacts(links, facts) == facts
  {
    hide FactSize, RenameFacts;
    var p := PredicateId(b);
    var p', rest' := links.pred(p), RenameFacts(types, links, rest);
    RenameFirst(types, links, b, f, rest);
    var s' := [p'] + f + rest';
    assert facts == [facts[0]] + facts[1..];
    if p' == p {
      SameFact(types, links, b, p, f, rest, rest');
      RenameFirst(types, links, p, f, rest');
      assert ([p] + f + RenameFacts(types, links, rest'))[1 + |f|..] == RenameFacts(types, links, rest');
      assert s'[1 + |f|..] == rest';
    } else {
      assert links.pred(p') != p';
      assert RenameFacts(types, links, s') != s' by { FirstByte(types, links, s'); }
      assert RenamedFacts(links, facts)[0].pred == p';
    }
  }

  lemma FirstByte(types: Types, links: Links, s: Code)
    requires s != []
    ensures RenameFacts(types, links, s)[0] == LowByte(links.pred(PredicateId(s[0])))
  {
  }

  /** The fields of a fact end where they did when only the mark on its predicate is dropped. */
  lemma SameFact(types: Types, links: Links, b: Byte, p: Byte, f: Code, rest: Code, rest': Code)
    requires FactSize(types, [b] + f + rest) == Some(|f|) && p == PredicateId(b)
    ensures FactSize(types, [p] + f + rest') == Some(|f|)
  {
    FactFields(types, b, f, rest);
    FactAlike(types, types(p), p, f, rest, rest');
  }

  lemma TwiceIs(types: Types, links: Links, h: Code)
    ensures Again(types, links, h, 1) == RenameOne(types, links, h)
    ensures Again(types, links, h, 2) == RenameOne(types, links, RenameOne(types, links, h))
  {
    hide RenameOne;
    assert Again(types, links, h, 1) == RenameOne(types, links, Again(types, links, h, 0));
    assert Again(types, links, h, 2) == RenameOne(types, links, Again(types, links, h, 1));
  }

  lemma TwicePredicate(types: Types, links: Links, h: Code)
    requires GoodLinks(links) && |h| >= 2 && NamesPredicate(h[0])
    ensures var p, r := PredicateId(h[1]), RenameOne(types, links, h);
            RenameOne(types, links, r) == r <==> links.pred(p) == p
  {
    var p := PredicateId(h[1]);
    var r := RenameOne(types, links, h);
    assert r[1] == links.pred(p);
    assert RenameOne(types, links, r)[1] == links.pred(links.pred(p));
  }

  lemma TwiceRule(types: Types, links: Links, h: Code)
    requires GoodLinks(links) && |h| >= 5 && h[0] == RULE
    ensures var id, r := Word(h, 1), RenameOne(types, links, h);
            RenameOne(types, links, r) == r <==> links.rule(id) == id
  {
    hide Word;
    var id := Word(h, 1);
    var r := RenameOne(types, links, h);
    RuleRenamed(h, links.rule(id));
    RuleRenamed(r, links.rule(links.rule(id)));
  }

  lemma TwiceAxioms(types: Types, links: Links, h: Code, facts: seq<Fact>)
    requires GoodLinks(links) && |h| >= NEW_AXIOMS_BASE && h[0] == NEW_AXIOMS
    requires DecodeFacts(types, h[NEW_AXIOMS_BASE..]) == Some(facts)
    ensures var r := RenameOne(types, links, h);
            RenameOne(types, links, r) == r <==> RenamedFacts(links, facts) == facts
  {
    hide RenameFacts, DecodeFacts, GoodLinks, RenamedFacts;
    var s := h[NEW_AXIOMS_BASE..];
    var r := RenameOne(types, links, h);
    FactsTwice(types, links, s, facts);
    assert r[NEW_AXIOMS_BASE..] == RenameFacts(types, links, s);
    var r' := RenameOne(types, links, r);
    assert r'[NEW_AXIOMS_BASE..] == RenameFacts(types, links, RenameFacts(types, links, s));
    assert r' == r'[..NEW_AXIOMS_BASE] + r'[NEW_AXIOMS_BASE..] && r == r[..NEW_AXIOMS_BASE] + r[NEW_AXIOMS_BASE..];
    assert r'[..NEW_AXIOMS_BASE] == r[..NEW_AXIOMS_BASE];
  }

  /** With good linker ids, relinking an instruction twice is relinking it once exactly when the ids that it
      names keep their values. */
  lemma TwiceExactly(types: Types, links: Links, h: Code, i: Instr)
    requires GoodLinks(links) && DecodeOne(types, h) == Some(i)
    ensures Again(types, links, h, 2) == RenameOne(types, links, h) <==> RenameInstr(links, i) == i
  {
    hide GoodLinks, Again, Advance, RenameFacts, DecodeFacts, RenamedFacts, Word;
    TwiceIs(types, links, h);
    match i {
      case Plain(_) =>
        PlainStays(types, links, h, i);
      case OnPredicate(_, _, _) =>
        TwicePredicate(types, links, h);
      case RuleId(_) =>
        TwiceRule(types, links, h);
      case Axioms(_, facts) =>
        TwiceAxioms(types, links, h, facts);
    }
  }

  lemma PlainStays(types: Types, links: Links, h: Code, i: Instr)
    requires DecodeOne(types, h) == Some(i) && i.Plain?
    ensures RenameOne(types, links, h) == h
  {
    Measured(h, 0) by { assert h[0..] == h; }
  }

  // ---------------------------------------------------------------- and more often

  /** An instruction with its ids replaced `k` times over. */
  function RenameTimes(links: Links, i: Instr, k: nat): Instr {
    if k == 0 then i else RenameInstr(links, RenameTimes(links, i, k - 1))
  }

  /** Predicates fit into seven bits, as they do when they have been read. */
  ghost predicate Read(i: Instr) {
    (i.OnPredicate? ==> i.pred < 0x80) && (i.Axioms? ==> FactsRead(i.facts))
  }

  ghost predicate FactsRead(facts: seq<Fact>) {
    forall k :: 0 <= k < |facts| ==> facts[k].pred < 0x80
  }

  lemma {:induction false} FactsAreRead(types: Types, s: Code)
    requires DecodeFacts(types, s).Some?
    ensures FactsRead(DecodeFacts(types, s).value)
    decreases |s|
  {
    hide FactSize;
    if s != [] {
      var f, rest := SplitFact(types, s, DecodeFacts(types, s).value);
      FactsAreRead(types, rest);
    }
  }

  lemma IsRead(types: Types, h: Code)
    requires DecodeOne(types, h).Some?
    ensures Read(DecodeOne(types, h).value)
  {
    if h[0] == NEW_AXIOMS && DecodeOne(types, h).value.Axioms? {
      FactsAreRead(types, h[NEW_AXIOMS_BASE..]);
    }
  }

  lemma {:induction false} RenamedFactsRead(links: Links, facts: seq<Fact>)
    requires GoodLinks(links) && FactsRead(facts)
    ensures FactsRead(RenamedFacts(links, facts))
  {
    if facts != [] {
      RenamedFactsRead(links, facts[1..]);
    }
  }

  lemma {:induction false} RenamedFactsInjective(links: Links, a: seq<Fact>, b: seq<Fact>)
    requires GoodLinks(links) && FactsRead(a) && FactsRead(b) && RenamedFacts(links, a) == RenamedFacts(links, b)
    ensures a == b
  {
    if a != [] && b != [] {
      var a', b' := RenamedFacts(links, a), RenamedFacts(links, b);
      assert a'[0] == b'[0] && a'[1..] == RenamedFacts(links, a[1..]) && b'[1..] == RenamedFacts(links, b[1..]);
      RenamedFactsInjective(links, a[1..], b[1..]);
      assert a == [a[0]] + a[1..] && b == [b[0]] + b[1..];
    }
  }

  lemma RenameInstrInjective(links: Links, a: Instr, b: Instr)
    requires GoodLinks(links) && Read(a) && Read(b)
    ensures RenameInstr(links, a) == RenameInstr(links, b) <==> a == b
    ensures Fits(links, a) && Read(RenameInstr(links, a))
  {
    if a.Axioms? {
      RenamedFactsRead(links, a.facts);
      if b.Axioms? && RenameInstr(links, a) == RenameInstr(links, b) {
        RenamedFactsInjective(links, a.facts, b.facts);
      }
    }
  }

  /** What relinking makes of facts depends on what they say only. */
  lemma {:induction false} SameFacts(types: Types, links: Links, a: Code, b: Code, facts: seq<Fact>)
    requires DecodeFacts(types, a) == Some(facts) == DecodeFacts(types, b)
    ensures RenameFacts(types, links, a) == RenameFacts(types, links, b)
    decreases |a|
  {
    hide FactSize, RenameFacts;
    if a == [] || b == [] {
      NoFacts(types, links);
    } else {
      var f, rest := SplitFact(types, a, facts);
      var f', rest' := SplitFact(types, b, facts);
      SameFacts(types, links, rest, rest', facts[1..]);
      RenameFirst(types, links, a[0], f, rest);
      RenameFirst(types, links, b[0], f', rest');
    }
  }

  /** And so for an instruction. */
  lemma SameInstr(types: Types, links: Links, a: Code, b: Code)
    requires DecodeOne(types, a).Some? && DecodeOne(types, a) == DecodeOne(types, b)
    ensures RenameOne(types, links, a) == RenameOne(types, links, b)
  {
    hide Advance, DecodeFacts, RenameFacts;
    match DecodeOne(types, a).value {
      case Plain(_) =>
      case OnPredicate(_, _, rest) =>
        assert a == [a[0], a[1]] + rest && b == [b[0], b[1]] + rest;
      case RuleId(_) =>
        SameWord(a, b);
      case Axioms(jump, facts) =>
        SameFacts(types, links, a[NEW_AXIOMS_BASE..], b[NEW_AXIOMS_BASE..], facts);
    }
  }

  lemma LowDigit(a: Byte, x: nat, b: Byte, y: nat)
    requires a + 0x100 * x == b + 0x100 * y
    ensures a == b && x == y
  {
  }

  lemma SameWord(a: Code, b: Code)
    requires |a| == |b| == 5 && a[0] == b[0] && Word(a, 1) == Word(b, 1)
    ensures a == b
  {
    var x: nat, y: nat := (a[3] as nat) + 0x100 * (a[4] as nat), (b[3] as nat) + 0x100 * (b[4] as nat);
    LowDigit(a[1], (a[2] as nat) + 0x100 * x, b[1], (b[2] as nat) + 0x100 * y);
    LowDigit(a[2], x, b[2], y);
    LowDigit(a[3], a[4], b[3], b[4]);
  }

  /** Relinking several times over renames several times over. */
  lemma {:induction false} AgainDecodes(types: Types, links: Links, h: Code, i: Instr, k: nat)
    requires GoodLinks(links) && SameFields(types, types, links) && DecodeOne(types, h) == Some(i)
    ensures DecodeOne(types, Again(types, links, h, k)) == Some(RenameTimes(links, i, k))
    ensures Read(RenameTimes(links, i, k))
  {
    hide GoodLinks, SameFields, DecodeOne, RenameOne, RenameInstr, Fits, Read;
    if k == 0 {
      IsRead(types, h);
    } else {
      AgainDecodes(types, links, h, i, k - 1);
      var i' := RenameTimes(links, i, k - 1);
      RenameInstrInjective(links, i', i');
      OneRenamed(types, types, links, Again(types, links, h, k - 1), i');
    }
  }

  /** With good linker ids, relinking an instruction `k` times is relinking it once exactly when replacing its
      ids `k - 1` times over gives them back. */
  lemma AgainExactly(types: Types, links: Links, h: Code, i: Instr, k: nat)
    requires GoodLinks(links) && SameFields(types, types, links) && DecodeOne(types, h) == Some(i) && k > 0
    ensures Again(types, links, h, k) == RenameOne(types, links, h) <==> RenameTimes(links, i, k - 1) == i
  {
    hide GoodLinks, SameFields, DecodeOne, RenameOne, RenameInstr, Fits, Read;
    var h' := Again(types, links, h, k - 1);
    AgainDecodes(types, links, h, i, k - 1);
    AgainDecodes(types, links, h, i, k);
    AgainDecodes(types, links, h, i, 1);
    IsRead(types, h);
    assert Again(types, links, h, 1) == RenameOne(types, links, Again(types, links, h, 0));
    assert RenameTimes(links, i, 1) == RenameInstr(links, RenameTimes(links, i, 0));
    RenameInstrInjective(links, RenameTimes(links, i, k - 1), i);
    if RenameTimes(links, i, k - 1) == i {
      SameInstr(types, links, h', h);
    }
  }

  /** The field types matter for facts only. */
  lemma {:induction false} TypesIdle(types: Types, types': Types, links: Links, h: Code, k: nat)
    requires h != [] && h[0] != NEW_AXIOMS
    ensures DecodeOne(types', h) == DecodeOne(types, h)
    ensures Again(types', links, h, k) == Again(types, links, h, k)
    ensures Again(types, links, h, k) != [] && Again(types, links, h, k)[0] == h[0]
  {
    hide Advance;
    if k > 0 {
      TypesIdle(types, types', links, h, k - 1);
    }
  }

  /** An instruction met `k` times is renamed correctly exactly then: if it is missed, when it has nothing to
      rename, and else when renaming it `k - 1` times more gives it back. */
  ghost predicate Survives(types: Types, links: Links, h: Code, k: nat) {
    if k == 0 then RenameOne(types, links, h) == h
    else DecodeOne(types, h).Some? && RenameTimes(links, DecodeOne(types, h).value, k - 1) == DecodeOne(types, h).value
  }

  /** Facts that are met three times or more are read with the fields of the ids written before. */
  ghost predicate FieldsAgree(types: Types, links: Links, h: Code, k: nat) {
    h != [] && (h[0] == NEW_AXIOMS && k > 2 ==> SameFields(types, types, links))
  }

  lemma SurvivesExactly(types: Types, links: Links, h: Code, k: nat)
    requires GoodLinks(links) && IsOne(types, h) && FieldsAgree(types, links, h, k)
    ensures Again(types, links, h, k) == RenameOne(types, links, h) <==> Survives(types, links, h, k)
  {
    hide GoodLinks, DecodeOne, RenameOne, RenameInstr;
    OneDecodes(types, h);
    var i := DecodeOne(types, h).value;
    TwiceIs(types, links, h);
    if k == 0 || k == 1 {
    } else if k == 2 {
      TwiceExactly(types, links, h, i);
      assert RenameTimes(links, i, 1) == RenameInstr(links, RenameTimes(links, i, 0));
    } else if h[0] == NEW_AXIOMS {
      AgainExactly(types, links, h, i, k);
    } else {
      var none: Types := _ => [];
      TypesIdle(types, none, links, h, k);
      TypesIdle(types, none, links, h, 1);
      TwiceIs(none, links, h);
      AgainExactly(none, links, h, i, k);
    }
  }

  lemma {:induction false} DecodedAt(types: Types, c: Code, pc: nat, until: nat, x: nat)
    requires pc <= until <= |c| && Decode(types, c[pc..until]).Some? && x in Starts(c[pc..until], pc)
    ensures x + Length(c, x) <= |c| && IsOne(types, c[x..x + Length(c, x)])
    decreases until - pc
  {
    hide Advance, DecodeOne, Length;
    var s := c[pc..until];
    if s == [] {
      NothingToRead();
    } else {
      var h, t := SplitHead(types, s, Decode(types, s).value);
      FirstLength(types, c, pc, until, h, t);
      StartsHead(h, t, pc) by { OneIsWhole(types, h); }
      if x != pc {
        DecodedAt(types, c, pc + |h|, until, x);
      }
    }
  }

  /** Code that is shared by entries of a table, or met more than once or not at all for other reasons: the
      walk is the linear renaming exactly when all of it survives. */
  lemma SharedExactly(types: Types, links: Links, c: Code, code: nat, until: nat, trail: seq<nat>)
    requires GoodLinks(links) && code <= until <= |c| && Decode(types, c[code..until]).Some?
    requires forall x {:trigger Length(c, x)} :: x in Starts(c[code..until], code) && x + Length(c, x) <= |c| ==>
               FieldsAgree(types, links, c[x..x + Length(c, x)], Visits(trail, x))
    ensures OnceOrFixed(types, links, c, Members(Starts(c[code..until], code)), trail) <==>
            forall x {:trigger Length(c, x)} :: x in Starts(c[code..until], code) ==>
              x + Length(c, x) <= |c| && Survives(types, links, c[x..x + Length(c, x)], Visits(trail, x))
  {
    hide GoodLinks, Decode, Starts, Length, IsOne, FieldsAgree, Survives, Again, RenameOne;
    var starts := Starts(c[code..until], code);
    forall x | x in starts
      ensures var n := Length(c, x);
              x + n <= |c|
              && (FixedAt(types, links, c, trail, x) <==> Survives(types, links, c[x..x + n], Visits(trail, x)))
    {
      DecodedAt(types, c, code, until, x);
      SurvivesExactly(types, links, c[x..x + Length(c, x)], Visits(trail, x));
    }
  }

  /** A `SELECT` with two entries for the same code: `ALLOC` and `RETURN SELECT`. */
  const SHARED: Code :=
    [SELECT, 25, 0, 0, 0, 2, 0, 0, 0, 1, 0, 0, 0, 1, 0, 0, 0, ALLOC, 1, 0, RETURN_SELECT, 0, 0, 0, 0]

  lemma SelectLength(c: Code, pc: nat)
    requires pc + SELECT_BASE <= |c| && c[pc] == SELECT && pc + SELECT_BASE + 4 * Word(c, pc + 5) <= |c|
    ensures Length(c, pc) == SELECT_BASE + 4 * Word(c, pc + 5)
  {
    assert Word(c[pc..], 5) == Word(c, pc + 5);
  }

  lemma FixedLength(c: Code, pc: nat, n: nat)
    requires pc + n <= |c| && n > 0
    requires (c[pc] == ALLOC && n == 3) || (c[pc] == RETURN_SELECT && n == 5)
    ensures Length(c, pc) == n
  {
  }

  lemma SharedLengths()
    ensures Length(SHARED, 0) == 17 && Length(SHARED, 17) == 3 && Length(SHARED, 20) == 5
    ensures Word(SHARED, 1) == 25 && Word(SHARED, 5) == 2 && Word(SHARED, 9) == 1 && Word(SHARED, 13) == 1
  {
    hide Length, Advance;
    SelectLength(SHARED, 0);
    FixedLength(SHARED, 17, 3);
    FixedLength(SHARED, 20, 5);
  }

  lemma SharedBranch()
    ensures UntilWalk(SHARED, 17, RETURN_SELECT) == Some(Walk(20, [17, 20]))
    ensures Laid(SHARED, {0, 17, 20})
  {
    hide Length;
    SharedLengths();
    assert SHARED[17] == ALLOC && SHARED[20] == RETURN_SELECT;
    assert InstrWalk(SHARED, 20) == Some(Walk(25, [20]));
    assert UntilWalk(SHARED, 20, RETURN_SELECT) == Some(Walk(20, [20]));
    assert InstrWalk(SHARED, 17) == Some(Walk(20, [17]));
    assert [17] + [20] == [17, 20];
  }

  /** The walk comes to the shared code twice. */
  lemma SharedWalk()
    ensures InstrWalk(SHARED, 0) == Some(Walk(25, [0, 17, 20, 17, 20]))
  {
    hide Length, UntilWalk, Word;
    SharedLengths();
    SharedBranch();
    assert SHARED[0] == SELECT && EntryCode(0, 2, 1) == 17;
    assert EntriesWalk(SHARED, 0, 2, 2) == Some([]);
    assert [17, 20] + [] == [17, 20];
    assert EntriesWalk(SHARED, 0, 2, 1) == Some([17, 20]);
    assert EntriesWalk(SHARED, 0, 2, 0) == Some([17, 20] + [17, 20]);
    assert [0] + ([17, 20] + [17, 20]) == [0, 17, 20, 17, 20];
  }

  /** The linker maps predicate 1 to 2 and predicate 2 to 3. */
  lemma AllocTwice(types: Types, links: Links)
    requires links.pred(1) == 2 && links.pred(2) == 3
    ensures Again(types, links, [ALLOC, 1, 0], 2) == [ALLOC, 3, 0]
  {
    var h: Code := [ALLOC, 1, 0];
    assert Again(types, links, h, 1) == RenameOne(types, links, Again(types, links, h, 0)) == [ALLOC, 2, 0];
    assert Again(types, links, h, 2) == RenameOne(types, links, Again(types, links, h, 1));
  }

  lemma SharedAfter(types: Types, links: Links, m: Code)
    requires Relinked(types, links, SHARED, m, {0, 17, 20}, [0, 17, 20, 17, 20])
    requires links.pred(1) == 2 && links.pred(2) == 3
    ensures |m| == 25 && m[18] == 3
  {
    hide Length, RenameOne;
    SharedLengths();
    AllocTwice(types, links);
    assert RelinkedAt(types, links, SHARED, m, [0, 17, 20, 17, 20], 17);
    assert SHARED[17..20] == [ALLOC, 1, 0];
    assert m[17..20][1] == m[18];
  }

  /** In the shared code predicate 1 becomes 3 instead of 2. */
  method SharedTwice(types: Types, links: Links) returns (pred: Byte)
    requires links.pred(1) == 2 && links.pred(2) == 3
    ensures pred == 3
  {
    hide Advance, Length, InstrWalk, Laid, Relinked, Inside;
    var a := new Byte[25](i requires 0 <= i < 25 => SHARED[i]);
    assert a[..] == SHARED;
    SharedWalk();
    SharedBranch();
    MembersInside([0, 17, 20, 17, 20]);
    assert Members([0, 17, 20, 17, 20]) == {0, 17, 20};
    NotYet(types, links, SHARED, {0, 17, 20});
    NothingInFront([0, 17, 20, 17, 20]);
    var next := InstrPrint(a, 0, types, links, SHARED, {0, 17, 20}, []);
    SharedAfter(types, links, a[..]);
    pred := a[18];
  }
}
