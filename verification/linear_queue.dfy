/**
  The lock-free queue of predicates/queue/safe_linear_queue.hpp: many producers, one consumer.

  Every shared access of `push_node`, `splice_headtail`, `empty` and `pop` is one atomic action, and
  a run is any interleaving of actions.  A node stands for the element it carries: `data` is written
  before the node is shared and node ids are never reused.
*/
module LinearQueue {
  import opened Common

  type NodeId = nat

  /** The node allocated by the constructor. */
  const SENTINEL: NodeId := 0

  /** Where a producer stands in the compare-and-swap loop; `segment` is what it is appending. */
  datatype Producer =
    | Idle
    | LoadTail(segment: seq<NodeId>)
    | LoadNext(segment: seq<NodeId>, last: NodeId)
    | Recheck(segment: seq<NodeId>, last: NodeId, seen: Option<NodeId>)
    | LinkCas(segment: seq<NodeId>, last: NodeId)
    | SwingCas(segment: seq<NodeId>, last: NodeId)
    | HelpCas(segment: seq<NodeId>, last: NodeId, successor: NodeId)

  datatype Consumer = Resting | SawWork | Taking(take: NodeId)

  datatype State = State(
    next: map<NodeId, Option<NodeId>>,
    head: NodeId,
    tail: NodeId,
    total: int,
    producers: seq<Producer>,
    consumer: Consumer)

  /** `Begin` covers both `push` (a segment of one node) and `splice` (a private chain of nodes). */
  datatype Action =
    | Begin(p: nat, nodes: seq<NodeId>)
    | Step(p: nat)
    | CheckEmpty
    | BeginPop
    | EndPop

  /** What has happened so far: the segments linked, in order, the same nodes one after the other
      behind the sentinel, the nodes popped, in order, and how far along the chain the tail has moved. */
  datatype Log = Log(links: seq<seq<NodeId>>, chain: seq<NodeId>, popped: seq<NodeId>, tailPos: nat)

  // ---------------------------------------------------------------- the program

  function Init(producers: nat): State {
    State(map[SENTINEL := None], SENTINEL, SENTINEL, 0, seq(producers, _ => Idle), Resting)
  }

  const EMPTY_LOG := Log([], [SENTINEL], [], 0)

  /** The private chain that a producer builds before it shares anything. */
  function PrivateChain(nodes: seq<NodeId>): map<NodeId, Option<NodeId>> {
    if |nodes| == 0 then map[]
    else PrivateChain(nodes[1..])[nodes[0] := if |nodes| == 1 then None else Some(nodes[1])]
  }

  /** An action can be taken when its thread stands there and it dereferences no null pointer. */
  ghost predicate Enabled(s: State, a: Action) {
    match a
    case Begin(p, nodes) =>
      p < |s.producers| && s.producers[p].Idle? && nodes != [] && NoDup(nodes)
      && forall n :: n in nodes ==> n !in s.next
    case Step(p) =>
      p < |s.producers| && !s.producers[p].Idle?
      && (s.producers[p].LoadNext? || s.producers[p].LinkCas? ==> s.producers[p].last in s.next)
      && (s.producers[p].SwingCas? || s.producers[p].LinkCas? ==> s.producers[p].segment != [])
    case CheckEmpty => s.consumer.Resting?
    case BeginPop => s.consumer.SawWork? && s.head in s.next && s.next[s.head].Some?
    case EndPop => s.consumer.Taking?
  }

  /** One turn of a producer: the next shared access of its loop. */
  ghost function ProducerStep(s: State, p: nat): State
    requires Enabled(s, Step(p))
  {
    match s.producers[p]
    case LoadTail(segment) => s.(producers := s.producers[p := LoadNext(segment, s.tail)])
    case LoadNext(segment, last) => s.(producers := s.producers[p := Recheck(segment, last, s.next[last])])
    case Recheck(segment, last, seen) =>
      var pc := if last != s.tail then LoadTail(segment)
                else if seen.None? then LinkCas(segment, last)
                else HelpCas(segment, last, seen.value);
      s.(producers := s.producers[p := pc])
    case LinkCas(segment, last) =>
      if s.next[last] == None then
        s.(next := s.next[last := Some(segment[0])], producers := s.producers[p := SwingCas(segment, last)])
      else
        s.(producers := s.producers[p := LoadTail(segment)])
    case SwingCas(segment, last) =>
      s.(tail := if s.tail == last then segment[|segment| - 1] else s.tail,
         producers := s.producers[p := Idle])
    case HelpCas(segment, last, successor) =>
      s.(tail := if s.tail == last then successor else s.tail,
         producers := s.producers[p := LoadTail(segment)])
  }

  ghost function Apply(s: State, a: Action): State
    requires Enabled(s, a)
  {
    match a
    case Begin(p, nodes) =>
      s.(next := s.next + PrivateChain(nodes),
         total := s.total + |nodes|,
         producers := s.producers[p := LoadTail(nodes)])
    case Step(p) => ProducerStep(s, p)
    case CheckEmpty => s.(consumer := if s.head == s.tail then Resting else SawWork)
    case BeginPop => s.(total := s.total - 1, consumer := Taking(s.next[s.head].value))
    case EndPop => s.(head := s.consumer.take, consumer := Resting)
  }

  /** The log entry that an action leaves. */
  ghost function Record(s: State, g: Log, a: Action): Log
    requires Enabled(s, a)
  {
    match a
    case Step(p) =>
      (match s.producers[p]
       case LinkCas(segment, last) =>
         if s.next[last] == None then g.(links := g.links + [segment], chain := g.chain + segment) else g
       case SwingCas(segment, last) =>
         if s.tail == last then g.(tailPos := g.tailPos + |segment|) else g
       case HelpCas(_, last, _) =>
         if s.tail == last then g.(tailPos := g.tailPos + 1) else g
       case _ => g)
    case EndPop => g.(popped := g.popped + [s.consumer.take])
    case _ => g
  }

  // ---------------------------------------------------------------- the invariant

  /** The producer has announced nodes that it has not linked yet. */
  predicate Retrying(pc: Producer) {
    !pc.Idle? && !pc.SwingCas?
  }

  function Pending(producers: seq<Producer>): nat {
    if |producers| == 0 then 0
    else Pending(producers[..|producers| - 1])
         + (var pc := producers[|producers| - 1]; if Retrying(pc) then |pc.segment| else 0)
  }

  /** `nodes` is a null-terminated chain that only its producer can reach. */
  ghost predicate Private(s: State, chain: seq<NodeId>, nodes: seq<NodeId>) {
    && nodes != [] && NoDup(nodes)
    && (forall i :: 0 <= i < |nodes| ==> nodes[i] !in chain)
    && Spelled(s.next, nodes)
  }

  /** Following `next` from the first node spells exactly `nodes`. */
  ghost predicate Spelled(next: map<NodeId, Option<NodeId>>, nodes: seq<NodeId>) {
    && (forall i :: 0 <= i < |nodes| ==> nodes[i] in next)
    && (forall i {:trigger Successor(nodes, i)} :: 0 <= i < |nodes| ==> next[nodes[i]] == Successor(nodes, i))
  }

  function Successor(nodes: seq<NodeId>, i: nat): Option<NodeId>
    requires i < |nodes|
  {
    if i + 1 < |nodes| then Some(nodes[i + 1]) else None
  }

  /** `n` is at or before position `bound` of the chain. */
  ghost predicate Within(chain: seq<NodeId>, n: NodeId, bound: nat) {
    exists i :: 0 <= i <= bound && i < |chain| && chain[i] == n
  }

  ghost predicate Adjacent(chain: seq<NodeId>, n: NodeId, m: NodeId) {
    exists i :: 0 <= i < |chain| && chain[i] == n && Successor(chain, i) == Some(m)
  }

  /** The segment sits in the chain right after `last`; while the tail still is `last`, it is the end. */
  ghost predicate LinkedAfter(chain: seq<NodeId>, segment: seq<NodeId>, last: NodeId, tailPos: nat) {
    exists i :: 0 <= i <= tailPos && i < |chain| && chain[i] == last && SegmentAt(chain, i + 1, segment)
                && (i == tailPos ==> i + 1 + |segment| == |chain|)
  }

  ghost predicate SegmentAt(chain: seq<NodeId>, k: nat, segment: seq<NodeId>) {
    k + |segment| <= |chain| && forall j :: 0 <= j < |segment| ==> chain[k + j] == segment[j]
  }

  ghost predicate ProducerInv(s: State, chain: seq<NodeId>, tailPos: nat, pc: Producer) {
    && (Retrying(pc) ==> Private(s, chain, pc.segment))
    && (pc.LoadNext? || pc.LinkCas? || pc.Recheck? || pc.HelpCas? ==> Within(chain, pc.last, tailPos))
    && (pc.Recheck? && pc.seen.Some? ==> Adjacent(chain, pc.last, pc.seen.value))
    && (pc.HelpCas? ==> Adjacent(chain, pc.last, pc.successor))
    && (pc.SwingCas? ==> pc.segment != [] && LinkedAfter(chain, pc.segment, pc.last, tailPos))
  }

  ghost predicate Separate(a: Producer, b: Producer) {
    Retrying(a) && Retrying(b) ==> forall n :: n in a.segment ==> n !in b.segment
  }

  /** A tail that lags behind the last node has somebody who will still move it. */
  ghost predicate LagExplained(s: State, g: Log) {
    g.tailPos + 1 < |g.chain| ==>
      exists p :: 0 <= p < |s.producers| && WillMoveTail(s.producers[p], s.tail)
  }

  predicate WillMoveTail(pc: Producer, tail: NodeId) {
    Retrying(pc) || (pc.SwingCas? && pc.last == tail)
  }

  /** The `next` pointers spell the chain; head and tail are two of its positions, in that order. */
  ghost predicate ChainInv(s: State, g: Log) {
    var chain := g.chain;
    && NoDup(chain) && Spelled(s.next, chain)
    && |g.popped| <= g.tailPos < |chain|
    && g.popped == chain[1..1 + |g.popped|]
    && s.head == chain[|g.popped|] && s.tail == chain[g.tailPos]
    && (!s.consumer.Resting? ==> |g.popped| < g.tailPos)
    && (s.consumer.Taking? ==> s.consumer.take == chain[|g.popped| + 1])
  }

  ghost predicate ProducersInv(s: State, g: Log) {
    && (forall p :: 0 <= p < |s.producers| ==> ProducerInv(s, g.chain, g.tailPos, s.producers[p]))
    && (forall p, q :: 0 <= p < q < |s.producers| ==> Separate(s.producers[p], s.producers[q]))
  }

  /** `size()` counts what is announced and not popped, or being popped. */
  ghost predicate TotalInv(s: State, g: Log) {
    s.total == |g.chain| - 1 + Pending(s.producers) - |g.popped| - (if s.consumer.Taking? then 1 else 0)
  }

  ghost predicate Inv(s: State, g: Log) {
    && g.chain == [SENTINEL] + Concat(g.links)
    && ChainInv(s, g) && ProducersInv(s, g) && LagExplained(s, g) && TotalInv(s, g)
  }

  lemma InitInv(producers: nat)
    ensures Inv(Init(producers), EMPTY_LOG)
  {
    PendingIdle(Init(producers).producers);
  }

  lemma PendingIdle(ps: seq<Producer>)
    requires forall i :: 0 <= i < |ps| ==> !Retrying(ps[i])
    ensures Pending(ps) == 0
  {
  }

  lemma {:induction false} PendingUpdate(ps: seq<Producer>, p: nat, pc: Producer)
    requires p < |ps|
    ensures Pending(ps[p := pc]) ==
            Pending(ps) - (if Retrying(ps[p]) then |ps[p].segment| else 0) + (if Retrying(pc) then |pc.segment| else 0)
  {
    var l := |ps| - 1;
    if p == l {
      assert ps[p := pc][..l] == ps[..l];
    } else {
      assert ps[p := pc][..l] == ps[..l][p := pc];
      PendingUpdate(ps[..l], p, pc);
    }
  }

  lemma {:induction false} PrivateChainSpelled(nodes: seq<NodeId>)
    requires NoDup(nodes)
    ensures PrivateChain(nodes).Keys == set n | n in nodes
    ensures Spelled(PrivateChain(nodes), nodes)
  {
    if |nodes| > 0 {
      var rest := nodes[1..];
      NoDupTail(nodes);
      PrivateChainSpelled(rest);
      assert forall n :: n in nodes <==> n == nodes[0] || n in rest;
      forall i | 0 < i < |nodes|
        ensures nodes[i] in PrivateChain(nodes)
        ensures PrivateChain(nodes)[nodes[i]] == PrivateChain(rest)[rest[i - 1]]
      {
        assert rest[i - 1] == nodes[i] && nodes[0] != nodes[i];
      }
      forall i | 0 <= i < |nodes| ensures PrivateChain(nodes)[nodes[i]] == Successor(nodes, i) {
        if i > 0 {
          assert Successor(rest, i - 1) == Successor(nodes, i);
        }
      }
    }
  }

  lemma SpelledFrame(next: map<NodeId, Option<NodeId>>, next': map<NodeId, Option<NodeId>>, nodes: seq<NodeId>)
    requires Spelled(next, nodes)
    requires forall n :: n in nodes && n in next ==> n in next' && next'[n] == next[n]
    ensures Spelled(next', nodes)
  {
    forall i | 0 <= i < |nodes|
      ensures nodes[i] in next' && next'[nodes[i]] == next[nodes[i]]
    {
      assert nodes[i] in next;
    }
  }

  // ---------------------------------------------------------------- every action keeps the invariant

  /** A turn that changes nothing but where producer `p` stands, and leaves it retrying. */
  lemma LocalTurn(s: State, g: Log, p: nat, pc: Producer)
    requires Inv(s, g) && p < |s.producers|
    requires Retrying(s.producers[p]) && Retrying(pc) && pc.segment == s.producers[p].segment
    requires ProducerInv(s, g.chain, g.tailPos, pc)
    ensures Inv(s.(producers := s.producers[p := pc]), g)
  {
    PendingUpdate(s.producers, p, pc);
    var s' := s.(producers := s.producers[p := pc]);
    forall q | 0 <= q < |s'.producers| ensures ProducerInv(s', g.chain, g.tailPos, s'.producers[q]) {
      assert ProducerInv(s, g.chain, g.tailPos, s'.producers[q]);
    }
    assert WillMoveTail(s'.producers[p], s'.tail);
  }

  lemma BeginInv(s: State, g: Log, p: nat, nodes: seq<NodeId>)
    requires Inv(s, g) && Enabled(s, Begin(p, nodes))
    ensures Inv(Apply(s, Begin(p, nodes)), g)
  {
    var s' := Apply(s, Begin(p, nodes));
    var chain := g.chain;
    PrivateChainSpelled(nodes);
    PendingUpdate(s.producers, p, LoadTail(nodes));
    SpelledFrame(s.next, s'.next, chain);
    SpelledFrame(PrivateChain(nodes), s'.next, nodes);
    forall q | 0 <= q < |s'.producers| ensures ProducerInv(s', chain, g.tailPos, s'.producers[q]) {
      if q != p {
        assert ProducerInv(s, chain, g.tailPos, s.producers[q]);
        if Retrying(s.producers[q]) {
          SpelledFrame(s.next, s'.next, s.producers[q].segment);
        }
      }
    }
    forall q | 0 <= q < |s.producers| && q != p
      ensures Separate(LoadTail(nodes), s.producers[q]) && Separate(s.producers[q], LoadTail(nodes))
    {
      assert ProducerInv(s, chain, g.tailPos, s.producers[q]);
    }
    if g.tailPos + 1 < |chain| {
      assert WillMoveTail(s'.producers[p], s'.tail);
    }
  }

  lemma LoadInv(s: State, g: Log, p: nat)
    requires Inv(s, g) && Enabled(s, Step(p))
    requires s.producers[p].LoadTail? || s.producers[p].LoadNext? || s.producers[p].Recheck?
    ensures Inv(Apply(s, Step(p)), g)
  {
    var pc := s.producers[p];
    var chain := g.chain;
    assert ProducerInv(s, chain, g.tailPos, pc);
    if pc.LoadNext? {
      var i :| 0 <= i <= g.tailPos && i < |chain| && chain[i] == pc.last;
      assert chain[i] in s.next;
      assert s.next[pc.last] == Successor(chain, i);
    }
    LocalTurn(s, g, p, Apply(s, Step(p)).producers[p]);
  }

  /** A compare-and-swap on `next` that finds it already written sends the producer round again. */
  lemma LinkFails(s: State, g: Log, p: nat)
    requires Inv(s, g) && Enabled(s, Step(p)) && s.producers[p].LinkCas?
    requires s.next[s.producers[p].last] != None
    ensures Inv(Apply(s, Step(p)), Record(s, g, Step(p)))
  {
    assert ProducerInv(s, g.chain, g.tailPos, s.producers[p]);
    LocalTurn(s, g, p, LoadTail(s.producers[p].segment));
  }

  /** Positions of the old chain keep their meaning when the chain grows at its end. */
  lemma ChainGrows(s: State, s': State, chain: seq<NodeId>, more: seq<NodeId>, tailPos: nat, pc: Producer)
    requires ProducerInv(s, chain, tailPos, pc)
    requires tailPos < |chain| && more != []
    requires Retrying(pc) ==> (forall n :: n in pc.segment ==> n !in more && n in s'.next && s'.next[n] == s.next[n])
    requires pc.SwingCas? ==> pc.last != chain[tailPos]
    ensures ProducerInv(s', chain + more, tailPos, pc)
  {
    var grown := chain + more;
    if Retrying(pc) {
      SpelledFrame(s.next, s'.next, pc.segment);
      if !pc.LoadTail? {
        var i :| 0 <= i <= tailPos && i < |chain| && chain[i] == pc.last;
        assert grown[i] == pc.last;
      }
    }
    if (pc.Recheck? && pc.seen.Some?) || pc.HelpCas? {
      var m := if pc.HelpCas? then pc.successor else pc.seen.value;
      var i :| 0 <= i < |chain| && chain[i] == pc.last && Successor(chain, i) == Some(m);
      assert grown[i] == pc.last && Successor(grown, i) == Some(m);
    }
    if pc.SwingCas? {
      var i :| 0 <= i <= tailPos && i < |chain| && chain[i] == pc.last && SegmentAt(chain, i + 1, pc.segment)
               && (i == tailPos ==> i + 1 + |pc.segment| == |chain|);
      assert grown[i] == pc.last && SegmentAt(grown, i + 1, pc.segment);
    }
  }

  /** A `next` pointer found null belongs to the last node of the chain, and the tail is there. */
  lemma NullNextIsEnd(next: map<NodeId, Option<NodeId>>, chain: seq<NodeId>, last: NodeId, tailPos: nat)
    requires Spelled(next, chain) && tailPos < |chain|
    requires Within(chain, last, tailPos) && last in next && next[last] == None
    ensures tailPos + 1 == |chain| && last == chain[tailPos]
  {
    var i :| 0 <= i <= tailPos && i < |chain| && chain[i] == last;
    assert next[chain[i]] == Successor(chain, i);
  }

  lemma LinkedSpelling(next: map<NodeId, Option<NodeId>>, chain: seq<NodeId>, segment: seq<NodeId>)
    requires chain != [] && segment != []
    requires Spelled(next, chain) && Spelled(next, segment)
    requires NoDup(chain) && NoDup(segment) && forall i :: 0 <= i < |segment| ==> segment[i] !in chain
    ensures Spelled(next[chain[|chain| - 1] := Some(segment[0])], chain + segment)
    ensures NoDup(chain + segment)
  {
    var last := chain[|chain| - 1];
    var next' := next[last := Some(segment[0])];
    var grown := chain + segment;
    forall i | 0 <= i < |chain| ensures chain[i] == last ==> i + 1 == |chain| {
      if chain[i] == last {
        SamePosition(chain, i, |chain| - 1);
      }
    }
    forall i | 0 <= i < |grown| ensures grown[i] in next' && next'[grown[i]] == Successor(grown, i) {
      if i < |chain| {
        assert chain[i] in next && next[chain[i]] == Successor(chain, i);
      } else {
        assert segment[i - |chain|] in next && next[segment[i - |chain|]] == Successor(segment, i - |chain|);
        assert last in chain;
      }
    }
    NoDupAppend(chain, segment);
  }

  /** The successful link: the private segment becomes the end of the chain. */
  lemma LinkChain(s: State, g: Log, s': State, g': Log, segment: seq<NodeId>)
    requires ChainInv(s, g) && Private(s, g.chain, segment) && g.tailPos + 1 == |g.chain|
    requires s'.next == s.next[g.chain[g.tailPos] := Some(segment[0])]
    requires s'.head == s.head && s'.tail == s.tail && s'.consumer == s.consumer
    requires g'.chain == g.chain + segment && g'.popped == g.popped && g'.tailPos == g.tailPos
    ensures ChainInv(s', g')
  {
    LinkedSpelling(s.next, g.chain, segment);
    assert g'.chain[1..1 + |g.popped|] == g.chain[1..1 + |g.popped|];
  }

  lemma LinkProducer(s: State, s': State, chain: seq<NodeId>, tailPos: nat, me: Producer, other: Producer)
    requires NoDup(chain) && tailPos + 1 == |chain|
    requires ProducerInv(s, chain, tailPos, me) && me.LinkCas? && me.last == chain[tailPos]
    requires me.segment != [] && s'.next == s.next[me.last := Some(me.segment[0])]
    requires ProducerInv(s, chain, tailPos, other)
    requires Separate(me, other) || Separate(other, me)
    ensures ProducerInv(s', chain + me.segment, tailPos, other)
  {
    assert me.last in chain;
    if other.SwingCas? {
      SwingBeforeEnd(chain, other.segment, other.last, tailPos);
    }
    ChainGrows(s, s', chain, me.segment, tailPos, other);
  }

  lemma LinkProducers(s: State, g: Log, p: nat, s': State, g': Log)
    requires NoDup(g.chain) && g.tailPos + 1 == |g.chain| && ProducersInv(s, g)
    requires p < |s.producers| && s.producers[p].LinkCas? && s.producers[p].last == g.chain[g.tailPos]
    requires s.producers[p].segment != []
    requires s'.next == s.next[s.producers[p].last := Some(s.producers[p].segment[0])]
    requires s'.producers == s.producers[p := SwingCas(s.producers[p].segment, s.producers[p].last)]
    requires g'.chain == g.chain + s.producers[p].segment && g'.tailPos == g.tailPos
    ensures ProducersInv(s', g')
  {
    var me := s.producers[p];
    assert ProducerInv(s, g.chain, g.tailPos, me);
    forall q | 0 <= q < |s'.producers| ensures ProducerInv(s', g'.chain, g'.tailPos, s'.producers[q]) {
      if q == p {
        assert g'.chain[g.tailPos] == me.last && SegmentAt(g'.chain, g.tailPos + 1, me.segment);
      } else {
        assert ProducerInv(s, g.chain, g.tailPos, s.producers[q]);
        assert if p < q then Separate(me, s.producers[q]) else Separate(s.producers[q], me);
        LinkProducer(s, s', g.chain, g.tailPos, me, s.producers[q]);
      }
    }
  }

  lemma LinkAccounts(s: State, g: Log, p: nat, s': State, g': Log)
    requires TotalInv(s, g) && p < |s.producers| && s.producers[p].LinkCas?
    requires s'.producers == s.producers[p := SwingCas(s.producers[p].segment, s.producers[p].last)]
    requires s'.total == s.total && s'.consumer == s.consumer && s'.tail == s.tail == s.producers[p].last
    requires g.chain == [SENTINEL] + Concat(g.links)
    requires g' == g.(links := g.links + [s.producers[p].segment], chain := g.chain + s.producers[p].segment)
    ensures TotalInv(s', g') && LagExplained(s', g') && g'.chain == [SENTINEL] + Concat(g'.links)
  {
    ConcatLast(g.links, s.producers[p].segment);
    PendingUpdate(s.producers, p, s'.producers[p]);
    assert WillMoveTail(s'.producers[p], s'.tail);
  }

  lemma LinkInv(s: State, g: Log, p: nat)
    requires Inv(s, g) && Enabled(s, Step(p)) && s.producers[p].LinkCas?
    requires s.next[s.producers[p].last] == None
    ensures Inv(Apply(s, Step(p)), Record(s, g, Step(p)))
  {
    var s', g' := Apply(s, Step(p)), Record(s, g, Step(p));
    var me := s.producers[p];
    assert ProducerInv(s, g.chain, g.tailPos, me);
    NullNextIsEnd(s.next, g.chain, me.last, g.tailPos);
    LinkChain(s, g, s', g', me.segment);
    LinkProducers(s, g, p, s', g');
    LinkAccounts(s, g, p, s', g');
  }

  /** While the tail is the last node, a linked segment is not still waiting right behind it. */
  lemma SwingBeforeEnd(chain: seq<NodeId>, segment: seq<NodeId>, last: NodeId, tailPos: nat)
    requires NoDup(chain) && tailPos + 1 == |chain| && segment != []
    requires LinkedAfter(chain, segment, last, tailPos)
    ensures last != chain[tailPos]
  {
    var i :| 0 <= i <= tailPos && i < |chain| && chain[i] == last && SegmentAt(chain, i + 1, segment);
    if last == chain[tailPos] {
      SamePosition(chain, i, tailPos);
    }
  }

  /** Moving the tail forward keeps what every other producer knows. */
  lemma TailMoves(s: State, s': State, chain: seq<NodeId>, tailPos: nat, tailPos': nat, pc: Producer)
    requires ProducerInv(s, chain, tailPos, pc) && s'.next == s.next && NoDup(chain)
    requires tailPos < tailPos' < |chain|
    ensures pc.SwingCas? ==> LinkedAfter(chain, pc.segment, pc.last, tailPos')
    ensures ProducerInv(s', chain, tailPos', pc)
  {
    if pc.SwingCas? {
      var i :| 0 <= i <= tailPos && i < |chain| && chain[i] == pc.last && SegmentAt(chain, i + 1, pc.segment);
      assert chain[i] == pc.last;
    }
  }

  /** Where a successful swing of the tail lands. */
  lemma SwingTarget(chain: seq<NodeId>, segment: seq<NodeId>, tailPos: nat)
    requires NoDup(chain) && tailPos < |chain| && segment != []
    requires LinkedAfter(chain, segment, chain[tailPos], tailPos)
    ensures tailPos + |segment| + 1 == |chain| && chain[tailPos + |segment|] == segment[|segment| - 1]
  {
    var i :| 0 <= i <= tailPos && i < |chain| && chain[i] == chain[tailPos] && SegmentAt(chain, i + 1, segment)
             && (i == tailPos ==> i + 1 + |segment| == |chain|);
    SamePosition(chain, i, tailPos);
    assert chain[i + 1 + (|segment| - 1)] == segment[|segment| - 1];
  }

  /** Where a successful helping step lands. */
  lemma HelpTarget(chain: seq<NodeId>, successor: NodeId, tailPos: nat)
    requires NoDup(chain) && tailPos < |chain| && Adjacent(chain, chain[tailPos], successor)
    ensures tailPos + 1 < |chain| && chain[tailPos + 1] == successor
  {
    var i :| 0 <= i < |chain| && chain[i] == chain[tailPos] && Successor(chain, i) == Some(successor);
    SamePosition(chain, i, tailPos);
  }

  /** A move of the tail along the chain, by the producer at `p`, keeps the invariant. */
  lemma TailMoveInv(s: State, g: Log, p: nat, s': State, g': Log)
    requires Inv(s, g) && p < |s.producers| && |s'.producers| == |s.producers|
    requires s' == s.(tail := s'.tail, producers := s.producers[p := s'.producers[p]])
    requires g' == g.(tailPos := g'.tailPos)
    requires g.tailPos <= g'.tailPos < |g.chain| && s'.tail == g.chain[g'.tailPos]
    requires ProducerInv(s', g.chain, g'.tailPos, s'.producers[p])
    requires Retrying(s'.producers[p]) ==> Retrying(s.producers[p]) && s'.producers[p].segment == s.producers[p].segment
    requires LagExplained(s', g') && TotalInv(s', g')
    ensures Inv(s', g')
  {
    forall q | 0 <= q < |s'.producers| ensures ProducerInv(s', g'.chain, g'.tailPos, s'.producers[q]) {
      if q != p {
        assert ProducerInv(s, g.chain, g.tailPos, s.producers[q]);
        if g.tailPos < g'.tailPos {
          TailMoves(s, s', g.chain, g.tailPos, g'.tailPos, s.producers[q]);
        }
      }
    }
  }

  lemma SwingInv(s: State, g: Log, p: nat)
    requires Inv(s, g) && Enabled(s, Step(p)) && s.producers[p].SwingCas?
    ensures Inv(Apply(s, Step(p)), Record(s, g, Step(p)))
  {
    var s', g' := Apply(s, Step(p)), Record(s, g, Step(p));
    assert ProducerInv(s, g.chain, g.tailPos, s.producers[p]);
    PendingUpdate(s.producers, p, Idle);
    if s.tail == s.producers[p].last {
      SwingTarget(g.chain, s.producers[p].segment, g.tailPos);
    } else if g.tailPos + 1 < |g.chain| {
      var q :| 0 <= q < |s.producers| && WillMoveTail(s.producers[q], s.tail);
      assert q != p && WillMoveTail(s'.producers[q], s'.tail);
    }
    TailMoveInv(s, g, p, s', g');
  }

  lemma HelpInv(s: State, g: Log, p: nat)
    requires Inv(s, g) && Enabled(s, Step(p)) && s.producers[p].HelpCas?
    ensures Inv(Apply(s, Step(p)), Record(s, g, Step(p)))
  {
    var s', g' := Apply(s, Step(p)), Record(s, g, Step(p));
    var pc := s.producers[p];
    assert ProducerInv(s, g.chain, g.tailPos, pc);
    PendingUpdate(s.producers, p, LoadTail(pc.segment));
    if s.tail == pc.last {
      HelpTarget(g.chain, pc.successor, g.tailPos);
    }
    assert WillMoveTail(s'.producers[p], s'.tail);
    TailMoveInv(s, g, p, s', g');
  }

  /** What the producers know does not depend on the consumer. */
  lemma ProducersFrame(s: State, g: Log, s': State, g': Log)
    requires ProducersInv(s, g) && LagExplained(s, g)
    requires s'.next == s.next && s'.producers == s.producers && s'.tail == s.tail
    requires g'.chain == g.chain && g'.tailPos == g.tailPos
    ensures ProducersInv(s', g') && LagExplained(s', g')
  {
    forall q | 0 <= q < |s'.producers| ensures ProducerInv(s', g'.chain, g'.tailPos, s'.producers[q]) {
      assert ProducerInv(s, g.chain, g.tailPos, s.producers[q]);
    }
  }

  lemma ConsumerChain(s: State, g: Log, a: Action)
    requires ChainInv(s, g) && Enabled(s, a) && (a.CheckEmpty? || a.BeginPop? || a.EndPop?)
    ensures ChainInv(Apply(s, a), Record(s, g, a))
  {
    if a.CheckEmpty? && s.head != s.tail {
      assert |g.popped| != g.tailPos;
    } else if a.BeginPop? {
      assert s.next[g.chain[|g.popped|]] == Successor(g.chain, |g.popped|);
    }
  }

  lemma ConsumerInv(s: State, g: Log, a: Action)
    requires Inv(s, g) && Enabled(s, a) && (a.CheckEmpty? || a.BeginPop? || a.EndPop?)
    ensures Inv(Apply(s, a), Record(s, g, a))
  {
    ConsumerChain(s, g, a);
    ProducersFrame(s, g, Apply(s, a), Record(s, g, a));
  }

  lemma StepInv(s: State, g: Log, a: Action)
    requires Inv(s, g) && Enabled(s, a)
    ensures Inv(Apply(s, a), Record(s, g, a))
  {
    match a {
      case Begin(p, nodes) => BeginInv(s, g, p, nodes);
      case Step(p) =>
        match s.producers[p] {
          case LinkCas(_, last) =>
            if s.next[last] == None { LinkInv(s, g, p); } else { LinkFails(s, g, p); }
          case SwingCas(_, _) => SwingInv(s, g, p);
          case HelpCas(_, _, _) => HelpInv(s, g, p);
          case _ => LoadInv(s, g, p);
        }
      case _ => ConsumerInv(s, g, a);
    }
  }

  // ---------------------------------------------------------------- whole runs

  /** `actions` is an interleaving the threads can take from `s`. */
  ghost predicate Runnable(s: State, actions: seq<Action>)
    decreases |actions|
  {
    actions != [] ==> Enabled(s, actions[0]) && Runnable(Apply(s, actions[0]), actions[1..])
  }

  ghost function After(s: State, actions: seq<Action>): State
    requires Runnable(s, actions)
    decreases |actions|
  {
    if actions == [] then s else After(Apply(s, actions[0]), actions[1..])
  }

  ghost function LogAfter(s: State, g: Log, actions: seq<Action>): Log
    requires Runnable(s, actions)
    decreases |actions|
  {
    if actions == [] then g else LogAfter(Apply(s, actions[0]), Record(s, g, actions[0]), actions[1..])
  }

  lemma {:induction false} RunInv(s: State, g: Log, actions: seq<Action>)
    requires Inv(s, g) && Runnable(s, actions)
    ensures Inv(After(s, actions), LogAfter(s, g, actions))
    decreases |actions|
  {
    if actions != [] {
      StepInv(s, g, actions[0]);
      RunInv(Apply(s, actions[0]), Record(s, g, actions[0]), actions[1..]);
    }
  }

  /** In every run the linked nodes are one null-terminated list starting at the sentinel, made of the
      linked segments in link order, each contiguous; the consumer's head has reached exactly the
      nodes popped so far, in link order and each once; the tail is at or past the head. */
  lemma QueueOrder(producers: nat, actions: seq<Action>)
    requires Runnable(Init(producers), actions)
    ensures var s, g := After(Init(producers), actions), LogAfter(Init(producers), EMPTY_LOG, actions);
            && g.chain == [SENTINEL] + Concat(g.links)
            && NoDup(g.chain) && Spelled(s.next, g.chain)
            && g.popped <= Concat(g.links)
            && |g.popped| <= g.tailPos < |g.chain|
            && s.head == g.chain[|g.popped|] && s.tail == g.chain[g.tailPos]
  {
    InitInv(producers);
    RunInv(Init(producers), EMPTY_LOG, actions);
    var g := LogAfter(Init(producers), EMPTY_LOG, actions);
    assert Concat(g.links)[..|g.popped|] == g.chain[1..1 + |g.popped|];
  }

  /** One action never rewrites a `next` pointer, never moves the tail back and never un-pops. */
  lemma StepForward(s: State, g: Log, a: Action)
    requires Inv(s, g) && Enabled(s, a)
    ensures forall n :: n in s.next ==> n in Apply(s, a).next
    ensures forall n :: n in s.next && s.next[n].Some? ==> Apply(s, a).next[n] == s.next[n]
    ensures g.tailPos <= Record(s, g, a).tailPos
    ensures g.chain <= Record(s, g, a).chain && g.popped <= Record(s, g, a).popped
  {
    if a.Begin? {
      PrivateChainSpelled(a.nodes);
    }
  }

  /** The queue seen as a sequence: what has been linked and not popped. */
  ghost function Queued(g: Log): seq<NodeId>
    requires |g.popped| <= |Concat(g.links)|
  {
    Concat(g.links)[|g.popped|..]
  }

  /** A push or splice takes effect when its segment is linked, all at once and at the end; a pop takes
      effect when the head moves, on the first node of a queue that is not empty; nothing else changes the
      queue.  When `empty()` answers no there is a node to pop. */
  lemma StepIsQueue(s: State, g: Log, a: Action)
    requires Inv(s, g) && Enabled(s, a)
    ensures |g.popped| <= |Concat(g.links)|
    ensures var g' := Record(s, g, a);
            && |g'.popped| <= |Concat(g'.links)|
            && (a.Step? && s.producers[a.p].LinkCas? && s.next[s.producers[a.p].last] == None ==>
                  Queued(g') == Queued(g) + s.producers[a.p].segment)
            && (a.EndPop? ==> Queued(g) == [s.consumer.take] + Queued(g'))
            && (g'.links == g.links && !a.EndPop? ==> Queued(g') == Queued(g))
            && (a.CheckEmpty? && s.head != s.tail ==> Queued(g) != [])
  {
    hide Inv, Apply, Concat, ProducerStep;
    StepInv(s, g, a);
    QueueIsChain(s, g);
    QueueIsChain(Apply(s, a), Record(s, g, a));
  }

  lemma QueueIsChain(s: State, g: Log)
    requires Inv(s, g)
    ensures |g.popped| <= |Concat(g.links)| && |g.popped| < |g.chain| && Queued(g) == g.chain[1 + |g.popped|..]
    ensures s.consumer.Taking? ==> 1 + |g.popped| < |g.chain| && s.consumer.take == g.chain[1 + |g.popped|]
    ensures s.head != s.tail ==> 1 + |g.popped| < |g.chain|
  {
    assert Concat(g.links) == g.chain[1..];
    if s.head != s.tail {
      assert |g.popped| != g.tailPos;
    }
  }

  /** The head is the node popped last, or the sentinel before the first pop, and it is not queued any more. */
  lemma HeadIsStale(s: State, g: Log)
    requires Inv(s, g)
    ensures s.head in s.next && |g.popped| <= |Concat(g.links)| && s.head !in Queued(g)
    ensures s.head == if g.popped == [] then SENTINEL else g.popped[|g.popped| - 1]
    ensures s.next[s.head].Some? <==> Queued(g) != []
  {
    hide Concat;
    QueueIsChain(s, g);
    var k := |g.popped|;
    assert s.next[g.chain[k]] == Successor(g.chain, k);
    forall i | k < i < |g.chain| ensures g.chain[i] != s.head {
      assert Differ(g.chain, k, i);
    }
    if k > 0 {
      assert g.popped[k - 1] == Concat(g.links)[k - 1];
    }
  }

  lemma {:induction false} RunForward(s: State, g: Log, actions: seq<Action>)
    requires Inv(s, g) && Runnable(s, actions)
    ensures forall n :: n in s.next ==> n in After(s, actions).next
    ensures forall n :: n in s.next && s.next[n].Some? ==> After(s, actions).next[n] == s.next[n]
    ensures g.tailPos <= LogAfter(s, g, actions).tailPos
    ensures g.chain <= LogAfter(s, g, actions).chain && g.popped <= LogAfter(s, g, actions).popped
    decreases |actions|
  {
    if actions != [] {
      StepForward(s, g, actions[0]);
      StepInv(s, g, actions[0]);
      RunForward(Apply(s, actions[0]), Record(s, g, actions[0]), actions[1..]);
    }
  }

  /** No thread ever dereferences a null or unknown node; in particular a pop behind a successful
      `!empty()` always finds a successor. */
  lemma NeverStuck(s: State, g: Log)
    requires Inv(s, g)
    ensures forall p :: 0 <= p < |s.producers| && !s.producers[p].Idle? ==> Enabled(s, Step(p))
    ensures s.consumer.SawWork? ==> Enabled(s, BeginPop)
    ensures s.consumer.Taking? ==> Enabled(s, EndPop)
  {
    forall p | 0 <= p < |s.producers| && !s.producers[p].Idle? ensures Enabled(s, Step(p)) {
      assert ProducerInv(s, g.chain, g.tailPos, s.producers[p]);
    }
    assert s.next[g.chain[|g.popped|]] == Successor(g.chain, |g.popped|);
  }

  /** How many producers are appending `segment` and have not linked it yet. */
  ghost function InFlight(producers: seq<Producer>, segment: seq<NodeId>): nat {
    if |producers| == 0 then 0
    else InFlight(producers[..|producers| - 1], segment) + Unlinked(producers[|producers| - 1], segment)
  }

  ghost function Unlinked(pc: Producer, segment: seq<NodeId>): nat {
    if Retrying(pc) && pc.segment == segment then 1 else 0
  }

  /** How many times `segment` was given to `push` or `splice` in a run. */
  ghost function Started(actions: seq<Action>, segment: seq<NodeId>): nat {
    if actions == [] then 0 else Starts(actions[0], segment) + Started(actions[1..], segment)
  }

  ghost function Starts(a: Action, segment: seq<NodeId>): nat {
    if a.Begin? && a.nodes == segment then 1 else 0
  }

  lemma {:induction false} InFlightUpdate(ps: seq<Producer>, p: nat, pc: Producer, segment: seq<NodeId>)
    requires p < |ps|
    ensures InFlight(ps[p := pc], segment) + Unlinked(ps[p], segment) == InFlight(ps, segment) + Unlinked(pc, segment)
  {
    var l := |ps| - 1;
    if p == l {
      assert ps[p := pc][..l] == ps[..l];
    } else {
      assert ps[p := pc][..l] == ps[..l][p := pc];
      InFlightUpdate(ps[..l], p, pc, segment);
    }
  }

  lemma StepConserves(s: State, g: Log, a: Action, segment: seq<NodeId>)
    requires Enabled(s, a)
    ensures multiset(Record(s, g, a).links)[segment] + InFlight(Apply(s, a).producers, segment) ==
            multiset(g.links)[segment] + InFlight(s.producers, segment) + Starts(a, segment)
  {
    if a.Begin? || a.Step? {
      var pc := Apply(s, a).producers[a.p];
      InFlightUpdate(s.producers, a.p, pc, segment);
      assert Apply(s, a).producers == s.producers[a.p := pc];
    }
  }

  /** Nothing is lost and nothing is linked twice: a segment has been linked as often as it was
      started, less the starts that are still in flight. */
  lemma {:induction false} RunConserves(s: State, g: Log, actions: seq<Action>, segment: seq<NodeId>)
    requires Runnable(s, actions)
    ensures multiset(LogAfter(s, g, actions).links)[segment] + InFlight(After(s, actions).producers, segment) ==
            multiset(g.links)[segment] + InFlight(s.producers, segment) + Started(actions, segment)
    decreases |actions|
  {
    if actions != [] {
      var a := actions[0];
      StepConserves(s, g, a, segment);
      RunConserves(Apply(s, a), Record(s, g, a), actions[1..], segment);
    }
  }

  ghost predicate Quiet(s: State) {
    forall p :: 0 <= p < |s.producers| ==> s.producers[p].Idle?
  }

  ghost predicate Drained(g: Log) {
    g.popped == Concat(g.links)
  }

  /** When `empty()` answers yes, nothing is left exactly when the tail node has no successor; an
      answer that is wrong is always somebody's unfinished work. */
  lemma EmptyExact(s: State, g: Log)
    requires Inv(s, g) && s.head == s.tail
    ensures s.tail in s.next
    ensures Drained(g) <==> s.next[s.tail] == None
    ensures !Drained(g) ==> exists p :: 0 <= p < |s.producers| && WillMoveTail(s.producers[p], s.tail)
  {
    assert s.next[g.chain[g.tailPos]] == Successor(g.chain, g.tailPos);
    SamePosition(g.chain, |g.popped|, g.tailPos);
    assert Concat(g.links) == g.chain[1..];
  }

  /** With no push or splice in flight `empty()` is exact and `size()` is the number of elements left. */
  lemma QuietEmptyExact(s: State, g: Log)
    requires Inv(s, g) && Quiet(s)
    ensures s.head == s.tail <==> Drained(g)
    ensures s.consumer.Resting? ==> s.total == |Concat(g.links)| - |g.popped|
  {
    PendingIdle(s.producers);
    assert Concat(g.links) == g.chain[1..];
    if s.head == s.tail {
      SamePosition(g.chain, |g.popped|, g.tailPos);
    }
  }

  /** `actions` is a possible run from `s` with log `g`, and leads to `s'` with log `g'`. */
  ghost predicate Leads(s: State, g: Log, actions: seq<Action>, s': State, g': Log) {
    Runnable(s, actions) && s' == After(s, actions) && g' == LogAfter(s, g, actions)
  }

  lemma {:induction false} Extend(s: State, g: Log, actions: seq<Action>, s': State, g': Log, a: Action)
    requires Leads(s, g, actions, s', g') && Enabled(s', a)
    ensures Leads(s, g, actions + [a], Apply(s', a), Record(s', g', a))
    decreases |actions|
  {
    if actions == [] {
      assert actions + [a] == [a] && [a][1..] == [];
    } else {
      assert (actions + [a])[1..] == actions[1..] + [a];
      Extend(Apply(s, actions[0]), Record(s, g, actions[0]), actions[1..], s', g', a);
    }
  }

  /** With a push in flight it need not be.  Producer 0 links the segment 1, 2; before it swings the
      tail, producer 1 helps it to node 1, so producer 0 returns without moving it; after one pop
      head and tail meet at node 1 although node 2 is in the queue. */
  const MISLEADING_RUN: seq<Action> :=
    [Begin(0, [1, 2]), Step(0), Step(0), Step(0), Step(0)]
    + [Begin(1, [3]), Step(1), Step(1), Step(1), Step(1)]
    + [Step(0), CheckEmpty, BeginPop, EndPop]

  const ALONE: map<NodeId, Option<NodeId>> := map[0 := None]
  const PREPARED: map<NodeId, Option<NodeId>> := map[0 := None, 1 := Some(2), 2 := None]
  const LINKED: map<NodeId, Option<NodeId>> := map[0 := Some(1), 1 := Some(2), 2 := None]
  const BOTH: map<NodeId, Option<NodeId>> := map[0 := Some(1), 1 := Some(2), 2 := None, 3 := None]
  const SWINGING := SwingCas([1, 2], 0)
  const WAITING := LoadTail([3])

  /** The states of this run, with what has happened up to each. */
  function MisleadingAt(k: nat): (State, Log) {
    if k < 5 then
      var s := if k == 0 then State(ALONE, 0, 0, 0, [Idle, Idle], Resting)
               else if k == 1 then State(PREPARED, 0, 0, 2, [LoadTail([1, 2]), Idle], Resting)
               else if k == 2 then State(PREPARED, 0, 0, 2, [LoadNext([1, 2], 0), Idle], Resting)
               else if k == 3 then State(PREPARED, 0, 0, 2, [Recheck([1, 2], 0, None), Idle], Resting)
               else State(PREPARED, 0, 0, 2, [LinkCas([1, 2], 0), Idle], Resting);
      (s, EMPTY_LOG)
    else if k < 10 then
      var s := if k == 5 then State(LINKED, 0, 0, 2, [SWINGING, Idle], Resting)
               else if k == 6 then State(BOTH, 0, 0, 3, [SWINGING, WAITING], Resting)
               else if k == 7 then State(BOTH, 0, 0, 3, [SWINGING, LoadNext([3], 0)], Resting)
               else if k == 8 then State(BOTH, 0, 0, 3, [SWINGING, Recheck([3], 0, Some(1))], Resting)
               else State(BOTH, 0, 0, 3, [SWINGING, HelpCas([3], 0, 1)], Resting);
      (s, Log([[1, 2]], [0, 1, 2], [], 0))
    else
      var s := if k == 10 then State(BOTH, 0, 1, 3, [SWINGING, WAITING], Resting)
               else if k == 11 then State(BOTH, 0, 1, 3, [Idle, WAITING], Resting)
               else if k == 12 then State(BOTH, 0, 1, 3, [Idle, WAITING], SawWork)
               else if k == 13 then State(BOTH, 0, 1, 2, [Idle, WAITING], Taking(1))
               else State(BOTH, 1, 1, 2, [Idle, WAITING], Resting);
      (s, Log([[1, 2]], [0, 1, 2], if k < 14 then [] else [1], 1))
  }

  ghost predicate MisleadingGoesOn(k: nat)
    requires k < |MISLEADING_RUN|
  {
    var (s, g) := MisleadingAt(k);
    var (s', g') := MisleadingAt(k + 1);
    && Enabled(s, MISLEADING_RUN[k])
    && Same(Apply(s, MISLEADING_RUN[k]), s') && SameLog(Record(s, g, MISLEADING_RUN[k]), g')
  }

  ghost predicate Same(s: State, s': State)
    ensures Same(s, s') ==> s == s'
  {
    && s.next == s'.next && s.head == s'.head && s.tail == s'.tail && s.total == s'.total
    && s.producers == s'.producers && s.consumer == s'.consumer
  }

  ghost predicate SameLog(g: Log, g': Log)
    ensures SameLog(g, g') ==> g == g'
  {
    g.links == g'.links && g.chain == g'.chain && g.popped == g'.popped && g.tailPos == g'.tailPos
  }

  /** Producer 0 starts to append 1, 2. */
  lemma MisleadingFirst()
    ensures MisleadingGoesOn(0)
  {
    assert [1, 2][1..] == [2] && [2][1..] == [];
    assert PrivateChain([1, 2]) == map[2 := None, 1 := Some(2)];
  }

  /** It links its segment. */
  lemma MisleadingLink(k: nat)
    requires 0 < k < 5
    ensures MisleadingGoesOn(k)
  {
    hide PrivateChain;
  }

  /** Producer 1 starts to append 3. */
  lemma MisleadingSecond()
    ensures MisleadingGoesOn(5)
  {
    assert [3][1..] == [];
    assert PrivateChain([3]) == map[3 := None];
  }

  /** It moves the tail to node 1. */
  lemma MisleadingHelp(k: nat)
    requires 5 < k < 10
    ensures MisleadingGoesOn(k)
  {
    hide PrivateChain;
  }

  /** Producer 0 returns and node 1 is popped. */
  lemma MisleadingPop(k: nat)
    requires 10 <= k < 14
    ensures MisleadingGoesOn(k)
  {
  }

  lemma MisleadingStart()
    ensures Leads(Init(2), EMPTY_LOG, [], MisleadingAt(0).0, MisleadingAt(0).1)
  {
    assert Init(2).producers == [Idle, Idle];
  }

  lemma {:induction false} MisleadingPrefix(k: nat)
    requires k <= 14
    ensures Leads(Init(2), EMPTY_LOG, MISLEADING_RUN[..k], MisleadingAt(k).0, MisleadingAt(k).1)
  {
    hide MisleadingAt, Leads, Apply, Record, Enabled;
    if k == 0 {
      MisleadingStart();
    } else {
      MisleadingPrefix(k - 1);
      if k == 1 {
        MisleadingFirst();
      } else if k <= 5 {
        MisleadingLink(k - 1);
      } else if k == 6 {
        MisleadingSecond();
      } else if k <= 10 {
        MisleadingHelp(k - 1);
      } else {
        MisleadingPop(k - 1);
      }
      var (s, g) := MisleadingAt(k - 1);
      Extend(Init(2), EMPTY_LOG, MISLEADING_RUN[..k - 1], s, g, MISLEADING_RUN[k - 1]);
      assert MISLEADING_RUN[..k] == MISLEADING_RUN[..k - 1] + [MISLEADING_RUN[k - 1]];
    }
  }

  /** The run above is possible; it ends with the splice of 1, 2 finished, node 2 still in the queue,
      and head and tail equal. */
  lemma MisleadingEmpty()
    ensures Runnable(Init(2), MISLEADING_RUN)
    ensures var s, g := After(Init(2), MISLEADING_RUN), LogAfter(Init(2), EMPTY_LOG, MISLEADING_RUN);
            && s.head == s.tail && s.producers == [Idle, LoadTail([3])]
            && g.links == [[1, 2]] && g.popped == [1] && !Drained(g)
  {
    MisleadingPrefix(14);
    assert MISLEADING_RUN[..14] == MISLEADING_RUN;
    ConcatLast([], [1, 2]);
    assert [] + [[1, 2]] == [[1, 2]];
  }

  // ---------------------------------------------------------------- the queue in memory

  /** The shared memory of one queue and the program counters of its threads.  Each method but
      `PushAlone` is one atomic action. */
  class PushSafeLinearQueue {
    var next: map<NodeId, Option<NodeId>>
    var head: NodeId
    var tail: NodeId
    var total: int
    var producers: seq<Producer>
    var consumer: Consumer
    ghost var log: Log

    ghost function Now(): State
      reads this
    {
      State(next, head, tail, total, producers, consumer)
    }

    ghost predicate Valid()
      reads this
    {
      Inv(Now(), log)
    }

    constructor (n: nat)
      ensures Valid() && Now() == Init(n) && log == EMPTY_LOG
    {
      next, head, tail, total := map[SENTINEL := None], SENTINEL, SENTINEL, 0;
      producers, consumer := seq(n, _ => Idle), Resting;
      log := EMPTY_LOG;
      new;
      InitInv(n);
    }

    method BeginAppend(p: nat, nodes: seq<NodeId>)
      requires Valid() && Enabled(Now(), Begin(p, nodes))
      modifies this
      ensures Valid() && Now() == Apply(old(Now()), Begin(p, nodes))
      ensures log == Record(old(Now()), old(log), Begin(p, nodes))
    {
      StepInv(Now(), log, Begin(p, nodes));
      next := next + PrivateChain(nodes);
      total := total + |nodes|;
      producers := producers[p := LoadTail(nodes)];
    }

    method Turn(p: nat)
      requires Valid() && Enabled(Now(), Step(p))
      modifies this
      ensures Valid() && Now() == Apply(old(Now()), Step(p))
      ensures log == Record(old(Now()), old(log), Step(p))
    {
      StepInv(Now(), log, Step(p));
      log := Record(Now(), log, Step(p));
      Access(p);
    }

    /** The shared access itself. */
    method Access(p: nat)
      requires Enabled(Now(), Step(p))
      modifies this`next, this`tail, this`producers
      ensures Now() == Apply(old(Now()), Step(p))
    {
      match producers[p] {
        case LoadTail(segment) =>
          producers := producers[p := LoadNext(segment, tail)];
        case LoadNext(segment, last) =>
          producers := producers[p := Recheck(segment, last, next[last])];
        case Recheck(segment, last, seen) =>
          if last != tail {
            producers := producers[p := LoadTail(segment)];
          } else if seen.None? {
            producers := producers[p := LinkCas(segment, last)];
          } else {
            producers := producers[p := HelpCas(segment, last, seen.value)];
          }
        case LinkCas(segment, last) =>
          if next[last] == None {
            next := next[last := Some(segment[0])];
            producers := producers[p := SwingCas(segment, last)];
          } else {
            producers := producers[p := LoadTail(segment)];
          }
        case SwingCas(segment, last) =>
          if tail == last {
            tail := segment[|segment| - 1];
          }
          producers := producers[p := Idle];
        case HelpCas(segment, last, successor) =>
          if tail == last {
            tail := successor;
          }
          producers := producers[p := LoadTail(segment)];
      }
    }

    /** One turn of the producer that runs alone. */
    method TurnAlone(p: nat, nodes: seq<NodeId>, ghost s0: State, ghost g0: Log)
      requires Valid() && AloneInv(s0, g0, Now(), log, p, nodes) && !producers[p].Idle?
      modifies this
      ensures Valid() && AloneInv(s0, g0, Now(), log, p, nodes)
      ensures 0 <= AloneDistance(Now(), log, p, |nodes|)
      ensures AloneDistance(Now(), log, p, |nodes|) < old(AloneDistance(Now(), log, p, |nodes|))
              || (AloneDistance(Now(), log, p, |nodes|) == old(AloneDistance(Now(), log, p, |nodes|))
                  && AloneRank(producers[p]) < old(AloneRank(producers[p])))
    {
      NeverStuck(Now(), log);
      assert ProducerInv(Now(), log.chain, log.tailPos, producers[p]);
      AloneStep(s0, g0, Now(), log, p, nodes);
      AloneProgress(s0, g0, Now(), log, p, nodes);
      Turn(p);
    }

    /** A producer that runs alone, whatever the others were stopped in the middle of, gets its
        segment linked and leaves the tail on the last node. */
    method PushAlone(p: nat, nodes: seq<NodeId>)
      requires Valid() && Enabled(Now(), Begin(p, nodes))
      modifies this
      ensures Valid() && AloneDone(old(Now()), old(log), Now(), log, nodes)
    {
      BeginAppend(p, nodes);
      while !producers[p].Idle?
        invariant Valid() && AloneInv(old(Now()), old(log), Now(), log, p, nodes)
        decreases AloneDistance(Now(), log, p, |nodes|), AloneRank(producers[p])
      {
        TurnAlone(p, nodes, old(Now()), old(log));
      }
      AloneEnds(old(Now()), old(log), Now(), log, p, nodes);
    }

    /** `empty()`. */
    method CheckWork() returns (empty: bool)
      requires Valid() && consumer.Resting?
      modifies this
      ensures Valid() && Now() == Apply(old(Now()), CheckEmpty) && log == old(log)
      ensures empty == (head == tail)
      ensures empty && Quiet(Now()) ==> Drained(log)
    {
      StepInv(Now(), log, CheckEmpty);
      empty := head == tail;
      if !empty {
        consumer := SawWork;
      }
      if Quiet(Now()) {
        QuietEmptyExact(Now(), log);
      }
    }

    /** `top()`, which reads the node at the head.  Its assertion holds exactly when something is queued, but
        what it returns is the element popped last, or that of the sentinel: never one that is queued. */
    method Top() returns (node: NodeId, asserted: bool)
      requires Valid() && consumer.Resting?
      ensures |log.popped| <= |Concat(log.links)| && (asserted <==> Queued(log) != [])
      ensures node !in Queued(log) && node == if log.popped == [] then SENTINEL else log.popped[|log.popped| - 1]
    {
      HeadIsStale(Now(), log);
      asserted := next[head].Some?;
      node := head;
    }

    /** `pop()`, behind a `CheckWork` that answered no; producers may run between its two halves, which
        is why it is stated for any moment at which the consumer stands there. */
    method Pop() returns (take: NodeId)
      requires Valid() && consumer.SawWork?
      modifies this
      ensures Valid() && log == old(log).(popped := old(log.popped) + [take])
      ensures |old(log.popped)| < |Concat(log.links)| && take == Concat(log.links)[|old(log.popped)|]
      ensures consumer.Resting? && head == take && next == old(next) && tail == old(tail) && producers == old(producers)
    {
      NeverStuck(Now(), log);
      StepInv(Now(), log, BeginPop);
      total := total - 1;
      take := next[head].value;
      consumer := Taking(take);
      StepInv(Now(), log, EndPop);
      log := Record(Now(), log, EndPop);
      head := take;
      consumer := Resting;
      assert take == log.chain[|old(log.popped)| + 1];
    }
  }

  /** What a producer running alone from state `s0` keeps until it is done. */
  ghost predicate AloneInv(s0: State, g0: Log, s: State, g: Log, p: nat, nodes: seq<NodeId>) {
    && p < |s.producers| && |s0.producers| == |s.producers| && s0.producers[p].Idle?
    && s.producers == s0.producers[p := s.producers[p]]
    && s.head == s0.head && s.consumer == s0.consumer && s.total == s0.total + |nodes| && g.popped == g0.popped
    && var pc := s.producers[p];
    && (Retrying(pc) ==> g.links == g0.links && pc.segment == nodes)
    && (!pc.Idle? && !pc.LoadTail? ==> pc.last == s.tail && s.tail in s.next)
    && (pc.Recheck? ==> pc.seen == s.next[s.tail])
    && (pc.LinkCas? ==> s.next[s.tail] == None)
    && (pc.SwingCas? ==> pc.segment == nodes && g.links == g0.links + [nodes])
    && (pc.Idle? ==>
          nodes != [] && s.tail == nodes[|nodes| - 1] && g.links == g0.links + [nodes] && g.tailPos + 1 == |g.chain|)
  }

  /** The effect of a push that ran without interference. */
  ghost predicate AloneDone(s0: State, g0: Log, s: State, g: Log, nodes: seq<NodeId>) {
    && g.links == g0.links + [nodes] && g.popped == g0.popped
    && nodes != [] && s.tail == nodes[|nodes| - 1] && s.tail in s.next && s.next[s.tail] == None
    && s.head == s0.head && s.consumer == s0.consumer && s.producers == s0.producers && s.total == s0.total + |nodes|
  }

  lemma AloneEnds(s0: State, g0: Log, s: State, g: Log, p: nat, nodes: seq<NodeId>)
    requires Inv(s, g) && AloneInv(s0, g0, s, g, p, nodes) && s.producers[p].Idle?
    ensures AloneDone(s0, g0, s, g, nodes)
  {
    assert s.next[g.chain[g.tailPos]] == Successor(g.chain, g.tailPos);
    assert s.producers == s0.producers;
  }

  function AloneRank(pc: Producer): nat {
    match pc
    case LoadTail(_) => 4
    case LoadNext(_, _) => 3
    case Recheck(_, _, _) => 2
    case LinkCas(_, _) => 1
    case HelpCas(_, _, _) => 1
    case _ => 0
  }

  /** How far the tail still has to move. */
  ghost function AloneDistance(s: State, g: Log, p: nat, size: nat): int
    requires p < |s.producers|
  {
    |g.chain| - g.tailPos + if Retrying(s.producers[p]) then size else 0
  }

  lemma AloneStep(s0: State, g0: Log, s: State, g: Log, p: nat, nodes: seq<NodeId>)
    requires AloneInv(s0, g0, s, g, p, nodes) && Enabled(s, Step(p))
    requires ChainInv(s, g) && ProducerInv(s, g.chain, g.tailPos, s.producers[p])
    ensures AloneInv(s0, g0, Apply(s, Step(p)), Record(s, g, Step(p)), p, nodes)
  {
    if s.producers[p].SwingCas? {
      SwingTarget(g.chain, s.producers[p].segment, g.tailPos);
    }
  }

  lemma AloneProgress(s0: State, g0: Log, s: State, g: Log, p: nat, nodes: seq<NodeId>)
    requires AloneInv(s0, g0, s, g, p, nodes) && Enabled(s, Step(p))
    requires ChainInv(s, g) && ProducerInv(s, g.chain, g.tailPos, s.producers[p])
    ensures var s', g' := Apply(s, Step(p)), Record(s, g, Step(p));
            0 <= AloneDistance(s', g', p, |nodes|)
            && (AloneDistance(s', g', p, |nodes|) < AloneDistance(s, g, p, |nodes|)
                || (AloneDistance(s', g', p, |nodes|) == AloneDistance(s, g, p, |nodes|)
                    && AloneRank(s'.producers[p]) < AloneRank(s.producers[p])))
  {
    var pc := s.producers[p];
    if pc.SwingCas? {
      SwingTarget(g.chain, pc.segment, g.tailPos);
    } else if pc.HelpCas? {
      HelpTarget(g.chain, pc.successor, g.tailPos);
    }
  }
}
