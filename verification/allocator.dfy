/**
  The allocator of predicates/mem/chunkgroup.hpp and predicates/mem/chunk.hpp: cells of one size from
  chunks that double, with a list of freed cells.

  Addresses are numbers.  Where a new chunk lies is up to the system's allocator: it is a parameter, and it
  does not overlap the chunks in use.
*/
module Allocator {
  import opened Common

  type Address = nat

  const INITIAL_NUM_ELEMS: nat := 64

  /** A freed cell holds the link to the next one. */
  const LINK_SIZE: nat := 8

  /** Half of the largest `size_t`. */
  const HALF_MAX: nat := 0x7FFF_FFFF_FFFF_FFFF

  /** `chunk`: a stretch of memory that is handed out from the bottom up. */
  class Chunk {
    const bottom: Address
    const top: Address
    var cur: Address

    constructor (bottom: Address, total: nat)
      ensures this.bottom == cur == bottom && top == bottom + total
    {
      this.bottom, cur, top := bottom, bottom, bottom + total;
    }

    /** The next cell, or nothing when the chunk is full; the pointer moves in either case. */
    method Allocate(size: nat) returns (cell: Option<Address>)
      modifies this
      ensures cur == old(cur) + size
      ensures cell == if old(cur) + size > top then None else Some(old(cur))
    {
      var oldCur := cur;
      cur := cur + size;
      if cur > top {
        return None;
      }
      cell := Some(oldCur);
    }
  }

  /** The memory of a chunk. */
  datatype Range = Range(bottom: Address, top: Address)

  function Ranges(chunks: seq<Chunk>): (r: seq<Range>)
    ensures |r| == |chunks| && forall i :: 0 <= i < |chunks| ==> r[i] == Range(chunks[i].bottom, chunks[i].top)
  {
    seq(|chunks|, i requires 0 <= i < |chunks| => Range(chunks[i].bottom, chunks[i].top))
  }

  /** Two stretches of memory have no byte in common. */
  predicate Disjoint(a: Address, aEnd: Address, b: Address, bEnd: Address) {
    aEnd <= b || bEnd <= a
  }

  // ---------------------------------------------------------------- what is handed out

  /** All cells handed out so far, the chunk of each, the cells in use, the freed cells, the number of cells
      that the newest chunk has left, the number of cells in all chunks, and the most cells ever in use. */
  datatype Ledger = Ledger(cells: seq<Address>, home: seq<nat>, live: set<Address>, free: seq<Address>,
                           left: nat, capacity: nat, peak: nat)

  ghost predicate ApartCells(size: nat, cells: seq<Address>, i: nat, j: nat)
    requires i < |cells| && j < |cells|
  {
    Disjoint(cells[i], cells[i] + size, cells[j], cells[j] + size)
  }

  /** No two cells overlap. */
  ghost predicate AllApart(size: nat, cells: seq<Address>) {
    forall i, j {:trigger ApartCells(size, cells, i, j)} :: 0 <= i < j < |cells| ==> ApartCells(size, cells, i, j)
  }

  /** A cell lies in its chunk, and below the pointer of the newest chunk. */
  ghost predicate CellInside(size: nat, ranges: seq<Range>, cur: Address, cells: seq<Address>, home: seq<nat>, k: nat)
    requires k < |cells| == |home|
  {
    && home[k] < |ranges| && ranges[home[k]].bottom <= cells[k] && cells[k] + size <= ranges[home[k]].top
    && (home[k] + 1 == |ranges| ==> cells[k] + size <= cur)
  }

  ghost predicate AllInside(size: nat, ranges: seq<Range>, cur: Address, cells: seq<Address>, home: seq<nat>) {
    && |home| == |cells|
    && forall k {:trigger CellInside(size, ranges, cur, cells, home, k)} :: 0 <= k < |cells| ==>
         CellInside(size, ranges, cur, cells, home, k)
  }

  ghost predicate ApartRanges(ranges: seq<Range>, i: nat, j: nat)
    requires i < |ranges| && j < |ranges|
  {
    Disjoint(ranges[i].bottom, ranges[i].top, ranges[j].bottom, ranges[j].top)
  }

  ghost predicate RangesApart(ranges: seq<Range>) {
    && (forall i, j {:trigger ApartRanges(ranges, i, j)} :: 0 <= i < j < |ranges| ==> ApartRanges(ranges, i, j))
    && forall i :: 0 <= i < |ranges| ==> ranges[i].bottom <= ranges[i].top
  }

  /** Where `operator new[]` may put another chunk. */
  ghost predicate Unused(ranges: seq<Range>, base: Address, total: nat) {
    forall i {:trigger ranges[i]} :: 0 <= i < |ranges| ==> Disjoint(ranges[i].bottom, ranges[i].top, base, base + total)
  }

  /** Every cell handed out is in use or on the free list, once. */
  ghost predicate Shared(g: Ledger) {
    && (forall a :: a in g.cells <==> a in g.live || a in g.free) && (forall a :: a in g.free ==> a !in g.live)
    && NoDup(g.free) && |g.live| + |g.free| == |g.cells|
  }

  /** The capacity stays within twice the peak demand. */
  ghost predicate Thrifty(num: nat, g: Ledger) {
    && |g.live| <= g.peak && num > 0
    && (g.capacity > 0 ==> g.capacity + 64 >= 2 * num && g.capacity <= 2 * g.peak + 62)
  }

  /** The length of `n` cells. */
  function Bytes(n: nat, size: nat): nat {
    n * size
  }

  /** The newest chunk has room for `left` more cells. */
  ghost predicate Room(size: nat, ranges: seq<Range>, cur: Address, num: nat, g: Ledger) {
    && |g.cells| + g.left == g.capacity
    && if ranges == [] then g.capacity == 0 && num == INITIAL_NUM_ELEMS
       else g.capacity > 0 && ranges[|ranges| - 1].bottom <= cur && cur + Bytes(g.left, size) == ranges[|ranges| - 1].top
  }

  ghost predicate Sound(size: nat, ranges: seq<Range>, cur: Address, num: nat, g: Ledger) {
    && size >= LINK_SIZE && RangesApart(ranges) && AllApart(size, g.cells) && AllInside(size, ranges, cur, g.cells, g.home)
    && Shared(g) && Room(size, ranges, cur, num, g) && Thrifty(num, g)
  }

  function Max(a: nat, b: nat): nat {
    if a < b then b else a
  }

  // ---------------------------------------------------------------- the steps

  /** Cells in use do not overlap. */
  lemma LiveApart(size: nat, ranges: seq<Range>, cur: Address, num: nat, g: Ledger, cell: Address)
    requires Sound(size, ranges, cur, num, g) && cell in g.live
    ensures forall a :: a in g.live && a != cell ==> Disjoint(a, a + size, cell, cell + size)
  {
    forall a | a in g.live && a != cell ensures Disjoint(a, a + size, cell, cell + size) {
      var i: nat :| i < |g.cells| && g.cells[i] == a;
      var j: nat :| j < |g.cells| && g.cells[j] == cell;
      if i < j {
        assert ApartCells(size, g.cells, i, j);
      } else {
        assert ApartCells(size, g.cells, j, i);
      }
    }
  }

  lemma CapacityBounded(size: nat, ranges: seq<Range>, cur: Address, num: nat, g: Ledger)
    requires Sound(size, ranges, cur, num, g)
    ensures g.capacity <= 2 * g.peak + 62
  {
  }

  lemma NoRoomYet(size: nat, ranges: seq<Range>, cur: Address, num: nat, g: Ledger)
    requires Sound(size, ranges, cur, num, g) && ranges == []
    ensures g.left == 0
  {
  }

  function Reused(g: Ledger): Ledger
    requires g.free != []
  {
    g.(live := g.live + {g.free[0]}, free := g.free[1..], peak := Max(g.peak, |g.live + {g.free[0]}|))
  }

  lemma ReuseSound(size: nat, ranges: seq<Range>, cur: Address, num: nat, g: Ledger)
    requires Sound(size, ranges, cur, num, g) && g.free != []
    ensures Sound(size, ranges, cur, num, Reused(g)) && g.free[0] in g.cells && g.free[0] !in g.live
  {
    NoDupTail(g.free);
    assert g.free[0] in g.free;
    assert forall a :: a in g.free <==> a == g.free[0] || a in g.free[1..];
  }

  function Freed(g: Ledger, a: Address): Ledger {
    g.(live := g.live - {a}, free := [a] + g.free)
  }

  lemma FreeSound(size: nat, ranges: seq<Range>, cur: Address, num: nat, g: Ledger, a: Address)
    requires Sound(size, ranges, cur, num, g) && a in g.live
    ensures Sound(size, ranges, cur, num, Freed(g, a))
  {
    NoDupFront(a, g.free);
  }

  /** A cell that no one had before. */
  function Added(g: Ledger, a: Address, chunk: nat, left: nat, capacity: nat): Ledger {
    g.(cells := g.cells + [a], home := g.home + [chunk], live := g.live + {a}, left := left, capacity := capacity,
       peak := Max(g.peak, |g.live + {a}|))
  }

  lemma NewCell(size: nat, g: Ledger, a: Address, chunk: nat, left: nat, capacity: nat)
    requires size > 0 && Shared(g) && g.free == [] && AllApart(size, g.cells)
    requires forall k {:trigger g.cells[k]} :: 0 <= k < |g.cells| ==>
               Disjoint(g.cells[k], g.cells[k] + size, a, a + size)
    ensures a !in g.live && Shared(Added(g, a, chunk, left, capacity)) && AllApart(size, g.cells + [a])
    ensures |g.live| == |g.cells|
  {
    var cells := g.cells + [a];
    assert a !in g.cells;
    forall i, j | 0 <= i < j < |cells| ensures ApartCells(size, cells, i, j) {
      if j < |g.cells| {
        assert ApartCells(size, g.cells, i, j);
      }
    }
  }

  lemma OneMore(n: nat, size: nat)
    ensures Bytes(n + 1, size) == Bytes(n, size) + size
    ensures size > 0 ==> Bytes(0, size) == 0
  {
  }

  /** The chunk is full exactly when it has no cell left. */
  lemma FullExactly(size: nat, ranges: seq<Range>, cur: Address, num: nat, g: Ledger)
    requires Sound(size, ranges, cur, num, g) && ranges != []
    ensures cur + size > ranges[|ranges| - 1].top <==> g.left == 0
  {
    hide Bytes, AllInside, AllApart, Shared;
    if g.left > 0 {
      OneMore(g.left - 1, size);
    } else {
      OneMore(0, size);
    }
  }

  /** What lies behind the pointer of the newest chunk belongs to no cell. */
  lemma ApartFromCur(size: nat, ranges: seq<Range>, cur: Address, num: nat, g: Ledger)
    requires Sound(size, ranges, cur, num, g) && ranges != [] && cur + size <= ranges[|ranges| - 1].top
    ensures forall k {:trigger g.cells[k]} :: 0 <= k < |g.cells| ==>
              Disjoint(g.cells[k], g.cells[k] + size, cur, cur + size)
  {
    hide Bytes, Shared, AllApart, Thrifty;
    forall k | 0 <= k < |g.cells| ensures Disjoint(g.cells[k], g.cells[k] + size, cur, cur + size) {
      assert CellInside(size, ranges, cur, g.cells, g.home, k);
      if g.home[k] < |ranges| - 1 {
        assert ApartRanges(ranges, g.home[k], |ranges| - 1);
      }
    }
  }

  /** One more cell of the newest chunk lies in it. */
  lemma NextInside(size: nat, ranges: seq<Range>, cur: Address, cells: seq<Address>, home: seq<nat>)
    requires AllInside(size, ranges, cur, cells, home) && ranges != []
    requires ranges[|ranges| - 1].bottom <= cur && cur + size <= ranges[|ranges| - 1].top
    ensures AllInside(size, ranges, cur + size, cells + [cur], home + [|ranges| - 1])
  {
    var cells', home', cur' := cells + [cur], home + [|ranges| - 1], cur + size;
    forall k | 0 <= k < |cells'| ensures CellInside(size, ranges, cur', cells', home', k) {
      assert k < |cells| ==> CellInside(size, ranges, cur, cells, home, k);
    }
  }

  /** The next cell of the newest chunk. */
  lemma NextSound(size: nat, ranges: seq<Range>, cur: Address, num: nat, g: Ledger)
    requires Sound(size, ranges, cur, num, g) && ranges != [] && g.left > 0 && g.free == []
    ensures var g' := Added(g, cur, |ranges| - 1, g.left - 1, g.capacity);
            cur !in g.live && Sound(size, ranges, cur + size, num, g')
  {
    hide Bytes, Shared, AllApart, AllInside;
    OneMore(g.left - 1, size);
    ApartFromCur(size, ranges, cur, num, g);
    NewCell(size, g, cur, |ranges| - 1, g.left - 1, g.capacity);
    NextInside(size, ranges, cur, g.cells, g.home);
  }

  /** How many cells a further chunk gets. */
  function NextElems(ranges: seq<Range>, num: nat): nat {
    if ranges == [] || num >= HALF_MAX then num else 2 * num
  }

  /** How many cells chunk `k` has: 64 for the first, and twice as many as the one before until they are 2 to the
      63, which is not doubled any more. */
  ghost function ChunkElems(k: nat): nat {
    64 * Pow2(if k < 57 then k else 57)
  }

  ghost predicate ChunkLong(size: nat, ranges: seq<Range>, k: nat)
    requires k < |ranges|
  {
    ranges[k].top == ranges[k].bottom + Bytes(ChunkElems(k), size)
  }

  /** Chunks double. */
  ghost predicate Doubling(size: nat, ranges: seq<Range>, num: nat) {
    && num == ChunkElems(if ranges == [] then 0 else |ranges| - 1)
    && forall k {:trigger ChunkLong(size, ranges, k)} :: 0 <= k < |ranges| ==> ChunkLong(size, ranges, k)
  }

  lemma {:induction false} Pow2Adds(a: nat, b: nat)
    ensures Pow2(a + b) == Pow2(a) * Pow2(b)
  {
    if a > 0 {
      Pow2Adds(a - 1, b);
    }
  }

  /** Some powers of two. */
  lemma PowersAre()
    ensures Pow2(56) == 0x100_0000_0000_0000 && Pow2(57) == 0x200_0000_0000_0000
  {
    assert Pow2(3) == 8 && Pow2(4) == 2 * Pow2(3) && Pow2(7) == 128 by {
      assert Pow2(5) == 32 && Pow2(6) == 2 * Pow2(5);
    }
    Pow2Adds(7, 7);
    Pow2Adds(14, 14);
    Pow2Adds(28, 28);
    assert Pow2(57) == 2 * Pow2(56);
  }

  lemma CapReached(k: nat)
    ensures 64 * Pow2(k) >= HALF_MAX <==> k >= 57
  {
    hide Pow2;
    PowersAre();
    if k > 57 {
      Pow2Grows(57, k);
    } else if k < 56 {
      Pow2Grows(k, 56);
    }
  }

  lemma GrowDoubling(size: nat, ranges: seq<Range>, num: nat, base: Address)
    requires Doubling(size, ranges, num)
    ensures var n := NextElems(ranges, num);
            Doubling(size, ranges + [Range(base, base + Bytes(n, size))], n)
  {
    hide Bytes;
    var n := NextElems(ranges, num);
    var ranges' := ranges + [Range(base, base + Bytes(n, size))];
    if ranges != [] {
      CapReached(if |ranges| - 1 < 57 then |ranges| - 1 else 57);
    }
    assert n == ChunkElems(|ranges|);
    forall k | 0 <= k < |ranges'| ensures ChunkLong(size, ranges', k) {
      assert k < |ranges| ==> ChunkLong(size, ranges, k);
    }
  }

  lemma ChunkLengths(size: nat, ranges: seq<Range>, num: nat)
    requires Doubling(size, ranges, num)
    ensures forall k :: 0 <= k < |ranges| ==>
              ranges[k].top - ranges[k].bottom == 64 * Pow2(if k < 57 then k else 57) * size
  {
    forall k | 0 <= k < |ranges|
      ensures ranges[k].top - ranges[k].bottom == 64 * Pow2(if k < 57 then k else 57) * size
    {
      assert ChunkLong(size, ranges, k);
    }
  }

  /** A chunk put where no other chunk is overlaps no cell. */
  lemma ApartFromNew(size: nat, ranges: seq<Range>, cur: Address, g: Ledger, base: Address, length: nat)
    requires AllInside(size, ranges, cur, g.cells, g.home) && Unused(ranges, base, length) && size <= length
    ensures forall k {:trigger g.cells[k]} :: 0 <= k < |g.cells| ==>
              Disjoint(g.cells[k], g.cells[k] + size, base, base + size)
  {
    forall k | 0 <= k < |g.cells| ensures Disjoint(g.cells[k], g.cells[k] + size, base, base + size) {
      assert CellInside(size, ranges, cur, g.cells, g.home, k);
    }
  }

  /** The first cell of a new chunk lies in it, and the others where they were. */
  lemma FirstInside(size: nat, ranges: seq<Range>, cur: Address, cells: seq<Address>, home: seq<nat>,
      base: Address, length: nat)
    requires AllInside(size, ranges, cur, cells, home) && size <= length
    ensures AllInside(size, ranges + [Range(base, base + length)], base + size, cells + [base], home + [|ranges|])
  {
    var ranges', cells', home' := ranges + [Range(base, base + length)], cells + [base], home + [|ranges|];
    var cur' := base + size;
    forall k | 0 <= k < |cells'| ensures CellInside(size, ranges', cur', cells', home', k) {
      assert k < |cells| ==> CellInside(size, ranges, cur, cells, home, k);
    }
  }

  lemma NewRangeApart(ranges: seq<Range>, base: Address, length: nat)
    requires RangesApart(ranges) && Unused(ranges, base, length)
    ensures RangesApart(ranges + [Range(base, base + length)])
  {
    var ranges' := ranges + [Range(base, base + length)];
    forall i, j | 0 <= i < j < |ranges'| ensures ApartRanges(ranges', i, j) {
      assert j < |ranges| ==> ApartRanges(ranges, i, j);
    }
  }

  /** A new chunk and its first cell: only when no cell is free, so that all cells there were are in use. */
  lemma GrowSound(size: nat, ranges: seq<Range>, cur: Address, num: nat, g: Ledger, base: Address)
    requires Sound(size, ranges, cur, num, g) && g.left == 0 && g.free == []
    requires Unused(ranges, base, Bytes(NextElems(ranges, num), size))
    ensures var n := NextElems(ranges, num);
            var g' := Added(g, base, |ranges|, n - 1, g.capacity + n);
            && base !in g.live && |g.live| == g.capacity && n > 0
            && Sound(size, ranges + [Range(base, base + Bytes(n, size))], base + size, n, g')
  {
    hide Bytes, Shared, AllApart, AllInside, RangesApart, Unused;
    var n := NextElems(ranges, num);
    OneMore(n - 1, size);
    ApartFromNew(size, ranges, cur, g, base, Bytes(n, size));
    NewCell(size, g, base, |ranges|, n - 1, g.capacity + n);
    FirstInside(size, ranges, cur, g.cells, g.home, base, Bytes(n, size));
    NewRangeApart(ranges, base, Bytes(n, size));
  }

  /** The front of a cell overlaps no other cell, in use or free. */
  lemma LinkFits(size: nat, ranges: seq<Range>, cur: Address, num: nat, g: Ledger, cell: Address)
    requires Sound(size, ranges, cur, num, g) && cell in g.live
    ensures forall a :: a in g.live || a in g.free ==> a == cell || Disjoint(cell, cell + LINK_SIZE, a, a + size)
  {
    forall a | (a in g.live || a in g.free) && a != cell ensures Disjoint(cell, cell + LINK_SIZE, a, a + size) {
      assert a in g.cells && cell in g.cells;
      var i :| 0 <= i < |g.cells| && g.cells[i] == a;
      var j :| 0 <= j < |g.cells| && g.cells[j] == cell;
      assert i < j ==> ApartCells(size, g.cells, i, j);
      assert j < i ==> ApartCells(size, g.cells, j, i);
    }
  }

  // ---------------------------------------------------------------- the allocator

  class ChunkGroup {
    const size: nat
    /** The chunks in the order of their `next_chunk` links; the last one is `new_chunk`. */
    var chunks: seq<Chunk>
    var freeObjs: seq<Address>
    var numElems: nat
    ghost var ledger: Ledger

    ghost function Cur(): Address
      reads this, chunks
    {
      if chunks == [] then 0 else chunks[|chunks| - 1].cur
    }

    /** Cells in use and freed cells do not overlap and lie in chunks, each cell handed out is in use or on
        the free list, once, and the capacity is bounded by the demand. */
    ghost predicate Valid()
      reads this, chunks
    {
      && ledger.free == freeObjs && Sound(size, Ranges(chunks), Cur(), numElems, ledger)
      && Doubling(size, Ranges(chunks), numElems)
    }

    constructor (size: nat)
      requires size >= LINK_SIZE
      ensures Valid() && ledger == Ledger([], [], {}, [], 0, 0, 0) && this.size == size && chunks == []
    {
      this.size := size;
      chunks, freeObjs, numElems := [], [], INITIAL_NUM_ELEMS;
      ledger := Ledger([], [], {}, [], 0, 0, 0);
    }

    /** `allocate`: `base` is where a new chunk would be put if one is needed. */
    method Allocate(base: Address) returns (cell: Address)
      requires Valid() && Unused(Ranges(chunks), base, Bytes(NextElems(Ranges(chunks), numElems), size))
      modifies this, chunks
      ensures Valid() && cell !in old(ledger).live && ledger.live == old(ledger).live + {cell}
      ensures forall a :: a in old(ledger).live ==> Disjoint(a, a + size, cell, cell + size)
      ensures old(freeObjs) != [] ==> [cell] + freeObjs == old(freeObjs)
      ensures ledger.peak == Max(old(ledger).peak, |ledger.live|) && ledger.capacity <= 2 * ledger.peak + 62
      ensures ledger.capacity != old(ledger).capacity ==> |old(ledger).live| == old(ledger).capacity
      ensures old(chunks) <= chunks && fresh(chunks[|old(chunks)|..])
      ensures forall k :: 0 <= k < |chunks| ==>
                chunks[k].top - chunks[k].bottom == 64 * Pow2(if k < 57 then k else 57) * size
    {
      hide Sound, Bytes, Doubling;
      if freeObjs != [] {
        cell := freeObjs[0];
        ReuseSound(size, Ranges(chunks), Cur(), numElems, ledger);
        freeObjs := freeObjs[1..];
        ledger := Reused(ledger);
      } else {
        cell := AllocateNew(base);
      }
      LiveApart(size, Ranges(chunks), Cur(), numElems, ledger, cell);
      CapacityBounded(size, Ranges(chunks), Cur(), numElems, ledger);
      ChunkLengths(size, Ranges(chunks), numElems);
    }

    /** The part of `allocate` that takes a cell from a chunk. */
    method AllocateNew(base: Address) returns (cell: Address)
      requires Valid() && freeObjs == []
               && Unused(Ranges(chunks), base, Bytes(NextElems(Ranges(chunks), numElems), size))
      modifies this, chunks
      ensures Valid() && cell !in old(ledger).live && ledger.live == old(ledger).live + {cell}
      ensures ledger.peak == Max(old(ledger).peak, |ledger.live|)
      ensures ledger.capacity != old(ledger).capacity ==> |old(ledger).live| == old(ledger).capacity
      ensures old(chunks) <= chunks && fresh(chunks[|old(chunks)|..])
    {
      hide Sound, Bytes, Doubling;
      if chunks == [] {
        NoRoomYet(size, Ranges(chunks), Cur(), numElems, ledger);
        cell := Grow(base, NextElems(Ranges(chunks), numElems), Cur());
        return;
      }
      var last := chunks[|chunks| - 1];
      ghost var cur := last.cur;
      FullExactly(size, Ranges(chunks), cur, numElems, ledger);
      if ledger.left > 0 {
        NextSound(size, Ranges(chunks), cur, numElems, ledger);
      }
      var got := last.Allocate(size);
      if got.Some? {
        cell := got.value;
        ledger := Added(ledger, cell, |chunks| - 1, ledger.left - 1, ledger.capacity);
      } else {
        cell := Grow(base, if numElems < HALF_MAX then 2 * numElems else numElems, cur);
      }
    }

    /** The first chunk, or a larger one behind a full one; `cur` is the pointer before the failed attempt. */
    method Grow(base: Address, elems: nat, ghost cur: Address) returns (cell: Address)
      requires Doubling(size, Ranges(chunks), numElems)
      requires Sound(size, Ranges(chunks), cur, numElems, ledger) && ledger.left == 0 && ledger.free == freeObjs == []
      requires elems == NextElems(Ranges(chunks), numElems) && Unused(Ranges(chunks), base, Bytes(elems, size))
      modifies this
      ensures Valid() && cell == base && base !in old(ledger).live && ledger.live == old(ledger).live + {base}
      ensures ledger.peak == Max(old(ledger).peak, |ledger.live|)
      ensures |old(ledger).live| == old(ledger).capacity && freeObjs == []
      ensures |chunks| == |old(chunks)| + 1 && chunks[..|old(chunks)|] == old(chunks) && fresh(chunks[|old(chunks)|])
    {
      hide Sound, Doubling, Bytes, Unused, NextElems;
      GrowSound(size, Ranges(chunks), cur, numElems, ledger, base);
      GrowDoubling(size, Ranges(chunks), numElems, base);
      OneMore(elems - 1, size);
      numElems := elems;
      var newChunk := new Chunk(base, Bytes(elems, size));
      ghost var ranges := Ranges(chunks);
      chunks := chunks + [newChunk];
      assert Ranges(chunks) == ranges + [Range(base, base + Bytes(elems, size))];
      var got := newChunk.Allocate(size);
      cell := got.value;
      ledger := Added(ledger, base, |chunks| - 1, elems - 1, ledger.capacity + elems);
    }

    /** `deallocate`: the link of eight bytes that is written into the cell touches no other cell. */
    method Deallocate(cell: Address)
      requires Valid() && cell in ledger.live
      modifies this`freeObjs, this`ledger
      ensures forall a :: a in old(ledger).live || a in old(freeObjs) ==>
                a == cell || Disjoint(cell, cell + 8, a, a + size)
      ensures Valid() && ledger.live == old(ledger).live - {cell} && freeObjs == [cell] + old(freeObjs)
      ensures ledger.capacity == old(ledger).capacity && ledger.peak == old(ledger).peak
    {
      LinkFits(size, Ranges(chunks), Cur(), numElems, ledger, cell);
      FreeSound(size, Ranges(chunks), Cur(), numElems, ledger, cell);
      freeObjs := [cell] + freeObjs;
      ledger := Freed(ledger, cell);
    }
  }
}
