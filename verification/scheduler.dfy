/**
  The static scheduler with node stealing (predicates/thread/static.cpp, with `TASK_STEALING`): threads
  that each run the nodes they own, pass on tuples for other nodes, and give away nodes on request.

  One action is one access to shared data by one thread; a run is any interleaving of actions.  Pushing
  on and popping from one of the shared queues is one action (see `LinearQueue` for the queue itself).
*/
module Scheduler {
  import opened Common

  type Tid = nat
  type NodeId = nat
  type Item = nat

  /** `process::work`: a tuple on its way to a node. */
  datatype Work = Work(node: NodeId, item: Item)

  /** Where a thread stands.
      `Routing`: a tuple in hand, the owner of its node still to be read (by `retrieve_tuples` or by
      `new_work_other`); `Sending`: about to push it on a buffer; `Adding`: about to append it to a node;
      `Checking`: appended, the flags still to be looked at; `Flagging`: node queued, `in_queue` to be set;
      `Giving` .. `Handed`: the inner loop of `answer_steal_requests`; `Taking`, `Settling`:
      `check_stolen_nodes`; `Doubting`: between the two tests of `check_if_current_useless`. */
  datatype Pc =
    | Free
    | Routing(w: Work, retrieved: bool)
    | Sending(w: Work, to: Tid)
    | Adding(w: Work, retrieved: bool)
    | Checking(n: NodeId, retrieved: bool)
    | Flagging(n: NodeId)
    | Giving(to: Tid, left: nat)
    | Picked(to: Tid, left: nat, n: NodeId)
    | Marked(to: Tid, left: nat, n: NodeId)
    | Handed(to: Tid, left: nat, n: NodeId)
    | Taking(n: NodeId)
    | Settling(n: NodeId)
    | Doubting(n: NodeId)

  datatype Thread = Thread(run: seq<NodeId>, buffer: seq<Work>, stolen: seq<NodeId>, requests: seq<Tid>,
                           current: Option<NodeId>, pc: Pc)

  /** For each node its owner, `in_queue`, `moving_around` and its queue of tuples. */
  datatype State = State(threads: seq<Thread>, owner: seq<Tid>, flag: seq<bool>, moving: seq<bool>,
                         pending: seq<seq<Item>>, made: Item)

  datatype Move =
    | Next
    | Emit(node: NodeId)
    | Create
    | Retrieve
    | TakeStolen
    | Request(target: Tid)
    | Answer
    | PopNode
    | Consume(k: nat)
    | Doubt

  datatype Action = Action(t: Tid, move: Move)

  // ---------------------------------------------------------------- the program

  /** `max(min(size, 4), frac)` with a stealing factor of one fifth: all of up to four nodes, four of up to 24,
      and one in five of more. */
  function StealSize(size: nat): (k: nat)
    ensures (size <= 4 ==> k == size) && (4 <= size < 25 ==> k == 4) && (size >= 25 ==> 5 * k <= size < 5 * k + 5)
  {
    var least := if size < 4 then size else 4;
    if least < size / 5 then size / 5 else least
  }

  ghost predicate Enabled(s: State, a: Action) {
    && a.t < |s.threads| && |s.flag| == |s.owner| && |s.moving| == |s.owner| && |s.pending| == |s.owner|
    && var th := s.threads[a.t];
       if a.move.Next? then !th.pc.Free? && PcEnabled(s, th.pc)
       else th.pc.Free? && MoveEnabled(s, a.t, th, a.move)
  }

  ghost predicate MoveEnabled(s: State, t: Tid, th: Thread, m: Move) {
    match m
    case Next => false
    case Emit(n) => n < |s.owner| && th.current.Some?
    case Create => th.current.Some?
    case Retrieve => th.buffer != []
    case TakeStolen => th.stolen != []
    case Request(target) => target < |s.threads| && target != t
    case Answer => th.requests != [] && th.run != []
    case PopNode => th.current.None? && th.run != []
    case Consume(k) => th.current.Some? && th.current.value < |s.pending| && k < |s.pending[th.current.value]|
    case Doubt => th.current.Some? && th.current.value < |s.pending| && s.pending[th.current.value] == []
  }

  ghost predicate PcEnabled(s: State, pc: Pc) {
    match pc
    case Free => true
    case Routing(w, _) => w.node < |s.owner|
    case Sending(_, to) => to < |s.threads|
    case Adding(w, _) => w.node < |s.owner|
    case Checking(n, _) => n < |s.owner|
    case Flagging(n) => n < |s.owner|
    case Giving(_, _) => true
    case Picked(_, _, n) => n < |s.owner|
    case Marked(_, _, n) => n < |s.owner|
    case Handed(to, _, _) => to < |s.threads|
    case Taking(n) => n < |s.owner|
    case Settling(n) => true
    case Doubting(n) => n < |s.owner|
  }

  function SetThread(s: State, t: Tid, th: Thread): State
    requires t < |s.threads|
  {
    s.(threads := s.threads[t := th])
  }

  ghost function Apply(s: State, a: Action): State
    requires Enabled(s, a)
  {
    var t, th := a.t, s.threads[a.t];
    match a.move
    case Next => Continue(s, t)
    case Emit(n) =>
      // a tuple is derived while a node runs; `machine::route` looks at the owner of its node
      var w := Work(n, s.made);
      SetThread(s, t, th.(pc := if s.owner[n] == t then Adding(w, false) else Routing(w, false))).(made := s.made + 1)
    case Create =>
      // a new node, known to its creator only, gets its first tuple and its owner
      var w := Work(|s.owner|, s.made);
      SetThread(s, t, th.(pc := Adding(w, false)))
      .(owner := s.owner + [t], flag := s.flag + [false], moving := s.moving + [false], pending := s.pending + [[]],
        made := s.made + 1)
    case Retrieve =>
      SetThread(s, t, th.(buffer := th.buffer[1..], pc := Routing(th.buffer[0], true)))
    case TakeStolen =>
      SetThread(s, t, th.(stolen := th.stolen[1..], pc := Taking(th.stolen[0])))
    case Request(target) =>
      var other := s.threads[target];
      SetThread(s, target, other.(requests := other.requests + [t]))
    case Answer =>
      SetThread(s, t, th.(requests := th.requests[1..], pc := Giving(th.requests[0], StealSize(|th.run|))))
    case PopNode =>
      SetThread(s, t, th.(run := th.run[1..], current := Some(th.run[0])))
    case Consume(k) =>
      var n := th.current.value;
      s.(pending := s.pending[n := s.pending[n][..k] + s.pending[n][k + 1..]])
    case Doubt =>
      SetThread(s, t, th.(pc := Doubting(th.current.value)))
  }

  /** The next access of an operation under way. */
  ghost function Continue(s: State, t: Tid): State
    requires Enabled(s, Action(t, Next))
  {
    var th := s.threads[t];
    match th.pc
    case Free => s
    case Routing(w, retrieved) =>
      var o := s.owner[w.node];
      SetThread(s, t, th.(pc := if retrieved && o == t then Adding(w, true) else Sending(w, o)))
    case Sending(w, to) =>
      var s1 := SetThread(s, t, th.(pc := Free));
      SetThread(s1, to, s1.threads[to].(buffer := s1.threads[to].buffer + [w]))
    case Adding(w, retrieved) =>
      SetThread(s, t, th.(pc := Checking(w.node, retrieved)))
      .(pending := s.pending[w.node := s.pending[w.node] + [w.item]])
    case Checking(n, retrieved) =>
      if s.flag[n] || (retrieved && s.moving[n]) then SetThread(s, t, th.(pc := Free))
      else SetThread(s, t, th.(run := th.run + [n], pc := Flagging(n)))
    case Flagging(n) =>
      SetThread(s, t, th.(pc := Free)).(flag := s.flag[n := true])
    case Giving(to, left) =>
      if left > 0 && th.run != [] then SetThread(s, t, th.(run := th.run[1..], pc := Picked(to, left - 1, th.run[0])))
      else SetThread(s, t, th.(pc := Free))
    case Picked(to, left, n) =>
      SetThread(s, t, th.(pc := Marked(to, left, n))).(moving := s.moving[n := true])
    case Marked(to, left, n) =>
      SetThread(s, t, th.(pc := Handed(to, left, n))).(owner := s.owner[n := to])
    case Handed(to, left, n) =>
      var s1 := SetThread(s, t, th.(pc := Giving(to, left)));
      SetThread(s1, to, s1.threads[to].(stolen := s1.threads[to].stolen + [n]))
    case Taking(n) =>
      SetThread(s, t, th.(pc := Settling(n))).(moving := s.moving[n := false])
    case Settling(n) =>
      SetThread(s, t, th.(run := th.run + [n], pc := Free))
    case Doubting(n) =>
      if s.pending[n] == [] then SetThread(s, t, th.(current := None, pc := Free)).(flag := s.flag[n := false])
      else SetThread(s, t, th.(pc := Free))
  }

  // ---------------------------------------------------------------- where everything is

  datatype NodePlace = Nowhere | OnRun(t: Tid) | OnStolen(t: Tid) | AsCurrent(t: Tid) | InHand(t: Tid)

  datatype ItemPlace = InBuffer(t: Tid) | WithThread(t: Tid) | AtNode(n: NodeId) | Consumed

  /** A record kept beside the state: the place of each node and each tuple, and each tuple's node. */
  datatype Places = Places(node: seq<NodePlace>, item: seq<ItemPlace>, dest: seq<NodeId>)

  ghost function Track(s: State, p: Places, a: Action): Places
    requires Enabled(s, a)
  {
    var t, th := a.t, s.threads[a.t];
    match a.move
    case Next => TrackNext(s, p, t)
    case Emit(n) => p.(item := p.item + [WithThread(t)], dest := p.dest + [n])
    case Create => p.(node := p.node + [Nowhere], item := p.item + [WithThread(t)], dest := p.dest + [|s.owner|])
    case Retrieve => PutItem(p, th.buffer[0].item, WithThread(t))
    case TakeStolen => PutNode(p, th.stolen[0], InHand(t))
    case PopNode => PutNode(p, th.run[0], AsCurrent(t))
    case Consume(k) => PutItem(p, s.pending[th.current.value][k], Consumed)
    case _ => p
  }

  ghost function TrackNext(s: State, p: Places, t: Tid): Places
    requires Enabled(s, Action(t, Next))
  {
    var th := s.threads[t];
    match th.pc
    case Sending(w, to) => PutItem(p, w.item, InBuffer(to))
    case Adding(w, _) => PutItem(p, w.item, AtNode(w.node))
    case Checking(n, retrieved) => if s.flag[n] || (retrieved && s.moving[n]) then p else PutNode(p, n, OnRun(t))
    case Giving(to, left) => if left > 0 && th.run != [] then PutNode(p, th.run[0], InHand(t)) else p
    case Handed(to, _, n) => PutNode(p, n, OnStolen(to))
    case Settling(n) => PutNode(p, n, OnRun(t))
    case Doubting(n) => if s.pending[n] == [] then PutNode(p, n, Nowhere) else p
    case _ => p
  }

  ghost function PutItem(p: Places, i: Item, place: ItemPlace): Places {
    if i < |p.item| then p.(item := p.item[i := place]) else p
  }

  ghost function PutNode(p: Places, n: NodeId, place: NodePlace): Places {
    if n < |p.node| then p.(node := p.node[n := place]) else p
  }

  // ---------------------------------------------------------------- the invariant

  ghost predicate NodeAt(p: Places, n: NodeId, place: NodePlace) {
    n < |p.node| && p.node[n] == place
  }

  ghost predicate ItemAt(p: Places, w: Work, place: ItemPlace) {
    w.item < |p.item| && w.item < |p.dest| && p.item[w.item] == place && p.dest[w.item] == w.node
  }

  ghost predicate Sizes(s: State, p: Places) {
    && |s.flag| == |s.owner| && |s.moving| == |s.owner| && |s.pending| == |s.owner| && |p.node| == |s.owner|
    && |p.item| == s.made && |p.dest| == s.made
  }

  ghost predicate RunOk(p: Places, t: Tid, run: seq<NodeId>) {
    NoDup(run) && forall n :: n in run ==> NodeAt(p, n, OnRun(t))
  }

  ghost predicate StolenOk(p: Places, t: Tid, stolen: seq<NodeId>) {
    NoDup(stolen) && forall n :: n in stolen ==> NodeAt(p, n, OnStolen(t))
  }

  ghost predicate BufferOk(p: Places, t: Tid, buffer: seq<Work>) {
    NoDup(buffer) && forall w :: w in buffer ==> ItemAt(p, w, InBuffer(t))
  }

  /** What the thread's operation under way relies on. */
  ghost predicate PcOk(s: State, p: Places, t: Tid, th: Thread)
    requires Sizes(s, p)
  {
    match th.pc
    case Free => true
    case Routing(w, _) => ItemAt(p, w, WithThread(t)) && w.node < |s.owner|
    case Sending(w, to) => ItemAt(p, w, WithThread(t)) && to < |s.threads| && w.node < |s.owner|
    case Adding(w, _) => ItemAt(p, w, WithThread(t)) && w.node < |s.owner| && s.owner[w.node] == t
    case Checking(n, _) => n < |s.owner| && s.owner[n] == t
    case Flagging(n) => NodeAt(p, n, OnRun(t)) && !s.flag[n] && s.owner[n] == t
    case Giving(to, _) => to < |s.threads| && to != t
    case Picked(to, _, n) => NodeAt(p, n, InHand(t)) && s.owner[n] == t && !s.moving[n] && to < |s.threads| && to != t
    case Marked(to, _, n) => NodeAt(p, n, InHand(t)) && s.owner[n] == t && s.moving[n] && to < |s.threads| && to != t
    case Handed(to, _, n) => NodeAt(p, n, InHand(t)) && s.owner[n] == to && s.moving[n] && to < |s.threads| && to != t
    case Taking(n) => NodeAt(p, n, InHand(t)) && s.owner[n] == t && s.moving[n]
    case Settling(n) => NodeAt(p, n, InHand(t)) && s.owner[n] == t && !s.moving[n]
    case Doubting(n) => th.current == Some(n) && n < |s.owner| && s.pending[n] == []
  }

  ghost predicate ThreadOk(s: State, p: Places, t: Tid)
    requires Sizes(s, p) && t < |s.threads|
  {
    var th := s.threads[t];
    && RunOk(p, t, th.run) && StolenOk(p, t, th.stolen) && BufferOk(p, t, th.buffer)
    && (th.current.Some? ==> NodeAt(p, th.current.value, AsCurrent(t)))
    && (forall r :: r in th.requests ==> r < |s.threads| && r != t)
    && PcOk(s, p, t, th)
  }

  /** The node that an operation under way has taken out of a queue. */
  function HeldNode(pc: Pc): Option<NodeId> {
    match pc
    case Picked(_, _, n) => Some(n)
    case Marked(_, _, n) => Some(n)
    case Handed(_, _, n) => Some(n)
    case Taking(n) => Some(n)
    case Settling(n) => Some(n)
    case _ => None
  }

  function HeldWork(pc: Pc): Option<Work> {
    match pc
    case Routing(w, _) => Some(w)
    case Sending(w, _) => Some(w)
    case Adding(w, _) => Some(w)
    case _ => None
  }

  /** The thread is about to see to it that the node is flagged. */
  predicate Alerting(pc: Pc, n: NodeId) {
    match pc
    case Checking(m, _) => m == n
    case Flagging(m) => m == n
    case _ => false
  }

  ghost predicate PlaceOk(s: State, p: Places, n: NodeId)
    requires Sizes(s, p) && n < |s.owner|
  {
    match p.node[n]
    case Nowhere => !s.flag[n] && !s.moving[n]
    case OnRun(t) =>
      && t < |s.threads| && n in s.threads[t].run && s.owner[n] == t && !s.moving[n]
      && (s.flag[n] || s.threads[t].pc == Flagging(n))
    case OnStolen(t) => t < |s.threads| && n in s.threads[t].stolen && s.owner[n] == t && s.moving[n] && s.flag[n]
    case AsCurrent(t) => t < |s.threads| && s.threads[t].current == Some(n) && s.owner[n] == t && !s.moving[n] && s.flag[n]
    case InHand(t) => t < |s.threads| && HeldNode(s.threads[t].pc) == Some(n) && s.flag[n]
  }

  ghost predicate NodeOk(s: State, p: Places, n: NodeId)
    requires Sizes(s, p) && n < |s.owner|
  {
    && PlaceOk(s, p, n) && s.owner[n] < |s.threads|
    && (s.pending[n] != [] ==> s.flag[n] || Alerting(s.threads[s.owner[n]].pc, n))
    && NoDup(s.pending[n]) && forall i :: i in s.pending[n] ==> ItemAt(p, Work(n, i), AtNode(n))
  }

  ghost predicate ItemOk(s: State, p: Places, i: Item)
    requires Sizes(s, p) && i < s.made
  {
    && p.dest[i] < |s.owner|
    && match p.item[i]
       case InBuffer(t) => t < |s.threads| && Work(p.dest[i], i) in s.threads[t].buffer
       case WithThread(t) => t < |s.threads| && HeldWork(s.threads[t].pc) == Some(Work(p.dest[i], i))
       case AtNode(n) => n == p.dest[i] && i in s.pending[n]
       case Consumed => true
  }

  ghost predicate Inv(s: State, p: Places) {
    && Sizes(s, p)
    && (forall t {:trigger ThreadOk(s, p, t)} :: 0 <= t < |s.threads| ==> ThreadOk(s, p, t))
    && (forall n {:trigger NodeOk(s, p, n)} :: 0 <= n < |s.owner| ==> NodeOk(s, p, n))
    && (forall i {:trigger ItemOk(s, p, i)} :: 0 <= i < s.made ==> ItemOk(s, p, i))
  }

  // ---------------------------------------------------------------- every action keeps it

  ghost predicate Mine(place: NodePlace, u: Tid) {
    place == OnRun(u) || place == OnStolen(u) || place == AsCurrent(u) || place == InHand(u)
  }

  /** Nothing happens to the thread `u`, to the nodes and tuples that it has, and to its ownership. */
  ghost predicate Spared(s: State, p: Places, s': State, p': Places, u: Tid)
    requires Sizes(s, p) && Sizes(s', p')
  {
    && |s'.threads| == |s.threads| && u < |s.threads| && s'.threads[u] == s.threads[u]
    && |s'.owner| >= |s.owner| && p.dest <= p'.dest
    && (forall n :: 0 <= n < |p.node| && Mine(p.node[n], u) ==>
          p'.node[n] == p.node[n] && s'.moving[n] == s.moving[n] && s'.flag[n] == s.flag[n] && s'.owner[n] == s.owner[n]
          && (p.node[n] == AsCurrent(u) ==> s'.pending[n] == s.pending[n]))
    && (forall n :: 0 <= n < |s.owner| && s.owner[n] == u ==> s'.owner[n] == u)
    && (forall i :: 0 <= i < |p.item| && (p.item[i] == InBuffer(u) || p.item[i] == WithThread(u)) ==> p'.item[i] == p.item[i])
  }

  lemma SparedThread(s: State, p: Places, s': State, p': Places, u: Tid)
    requires Sizes(s, p) && Sizes(s', p') && Spared(s, p, s', p', u) && ThreadOk(s, p, u)
    ensures ThreadOk(s', p', u)
  {
    var th := s.threads[u];
    forall w | w in th.buffer ensures ItemAt(p', w, InBuffer(u)) {
      assert ItemAt(p, w, InBuffer(u));
    }
    forall n | n in th.run ensures NodeAt(p', n, OnRun(u)) {
      assert NodeAt(p, n, OnRun(u));
    }
    forall n | n in th.stolen ensures NodeAt(p', n, OnStolen(u)) {
      assert NodeAt(p, n, OnStolen(u));
    }
  }

  /** The thread still has every node but `n` where it had it, and is still about to flag it. */
  ghost predicate KeepsNodes(th: Thread, th': Thread, n: NodeId) {
    && (forall m :: m in th.run && m != n ==> m in th'.run)
    && (forall m :: m in th.stolen && m != n ==> m in th'.stolen)
    && (th.current.Some? && th.current.value != n ==> th'.current == th.current)
    && (HeldNode(th.pc).Some? && HeldNode(th.pc).value != n ==> HeldNode(th'.pc) == HeldNode(th.pc))
    && (th.pc.Checking? && th.pc.n != n ==> th'.pc == th.pc)
    && (th.pc.Flagging? && th.pc.n != n ==> th'.pc == th.pc)
  }

  /** The thread still has every tuple but `i` where it had it. */
  ghost predicate KeepsWork(th: Thread, th': Thread, i: Item) {
    && (forall w :: w in th.buffer && w.item != i ==> w in th'.buffer)
    && (HeldWork(th.pc).Some? && HeldWork(th.pc).value.item != i ==> HeldWork(th'.pc) == HeldWork(th.pc))
  }

  /** The node is where it was, with the same owner and flags. */
  ghost predicate SameNode(s: State, p: Places, s': State, p': Places, m: NodeId)
    requires Sizes(s, p) && Sizes(s', p') && m < |s.owner| <= |s'.owner|
  {
    s'.owner[m] == s.owner[m] && s'.flag[m] == s.flag[m] && s'.moving[m] == s.moving[m] && p'.node[m] == p.node[m]
  }

  /** The node is nobody else's, and so is its ownership if it changes. */
  ghost predicate Theirs(s: State, p: Places, s': State, t: Tid, u: Tid, n: NodeId)
    requires Sizes(s, p) && n < |s.owner| <= |s'.owner|
  {
    && (s.owner[n] == t || s.owner[n] == u || s'.owner[n] == s.owner[n])
    && forall v :: Mine(p.node[n], v) ==> v == t || v == u
  }

  /** Only the threads `t` and `u`, the node `n` and the tuple `i` have changed, and what has changed was
      theirs. */
  ghost predicate Local(s: State, p: Places, s': State, p': Places, t: Tid, u: Tid, n: NodeId, i: Item)
    requires Sizes(s, p) && Sizes(s', p')
  {
    && t < |s.threads| && u < |s.threads| && |s'.threads| == |s.threads|
    && (|s'.owner| == |s.owner| || (|s'.owner| == |s.owner| + 1 && n == |s.owner|))
    && (s'.made == s.made || (s'.made == s.made + 1 && i == s.made)) && p.dest <= p'.dest
    && (forall v :: 0 <= v < |s.threads| && v != t && v != u ==> s'.threads[v] == s.threads[v])
    && (forall m :: 0 <= m < |s.owner| && m != n ==> SameNode(s, p, s', p', m) && s'.pending[m] == s.pending[m])
    && (n < |s.owner| ==> forall j :: j in s.pending[n] && j != i ==> j in s'.pending[n])
    && (forall j :: 0 <= j < s.made && j != i ==> p'.item[j] == p.item[j])
    && (n < |s.owner| ==> SameNode(s, p, s', p', n) || Theirs(s, p, s', t, u, n))
    && (n < |s.owner| && p.node[n].AsCurrent? ==> p.node[n].t == t || p.node[n].t == u || s'.pending[n] == s.pending[n])
    && (i < s.made ==> match p.item[i]
                       case InBuffer(v) => v == t || v == u
                       case WithThread(v) => v == t || v == u
                       case AtNode(m) => m == n
                       case Consumed => true)
  }

  /** The rest keeps its place. */
  lemma Kept(s: State, p: Places, s': State, p': Places, t: Tid, u: Tid, n: NodeId, i: Item)
    requires Inv(s, p) && Sizes(s', p') && Local(s, p, s', p', t, u, n, i)
    requires ThreadOk(s', p', t) && ThreadOk(s', p', u)
    requires n < |s'.owner| ==> NodeOk(s', p', n)
    requires i < s'.made ==> ItemOk(s', p', i)
    requires KeepsNodes(s.threads[t], s'.threads[t], n) && KeepsNodes(s.threads[u], s'.threads[u], n)
    requires KeepsWork(s.threads[t], s'.threads[t], i) && KeepsWork(s.threads[u], s'.threads[u], i)
    ensures Inv(s', p')
  {
    forall v | 0 <= v < |s'.threads| ensures ThreadOk(s', p', v) {
      if v != t && v != u {
        KeptThread(s, p, s', p', t, u, n, i, v);
      }
    }
    forall m | 0 <= m < |s'.owner| ensures NodeOk(s', p', m) {
      if m != n {
        KeptNode(s, p, s', p', t, u, n, i, m);
      }
    }
    forall j | 0 <= j < s'.made ensures ItemOk(s', p', j) {
      if j != i {
        assert ItemOk(s, p, j);
      }
    }
  }

  lemma KeptThread(s: State, p: Places, s': State, p': Places, t: Tid, u: Tid, n: NodeId, i: Item, v: Tid)
    requires Inv(s, p) && Sizes(s', p') && Local(s, p, s', p', t, u, n, i)
    requires v < |s.threads| && v != t && v != u
    ensures ThreadOk(s', p', v)
  {
    assert ThreadOk(s, p, v);
    forall m | 0 <= m < |s.owner| && (Mine(p.node[m], v) || s.owner[m] == v)
      ensures s'.owner[m] == v || s.owner[m] != v
      ensures Mine(p.node[m], v) ==> SameNode(s, p, s', p', m)
    {
      assert m != n ==> SameNode(s, p, s', p', m);
    }
    SparedThread(s, p, s', p', v);
  }

  lemma KeptNode(s: State, p: Places, s': State, p': Places, t: Tid, u: Tid, n: NodeId, i: Item, m: NodeId)
    requires Inv(s, p) && Sizes(s', p') && Local(s, p, s', p', t, u, n, i) && m < |s.owner| && m != n
    requires KeepsNodes(s.threads[t], s'.threads[t], n) && KeepsNodes(s.threads[u], s'.threads[u], n)
    ensures NodeOk(s', p', m)
  {
    hide ThreadOk, ItemOk, KeepsWork, Theirs, NoDup;
    assert NodeOk(s, p, m) && SameNode(s, p, s', p', m);
    forall j | j in s.pending[m] ensures ItemAt(p', Work(m, j), AtNode(m)) {
      assert ItemAt(p, Work(m, j), AtNode(m));
    }
  }

  lemma EmitInv(s: State, p: Places, t: Tid, n: NodeId)
    requires Inv(s, p) && Enabled(s, Action(t, Emit(n)))
    ensures Inv(Apply(s, Action(t, Emit(n))), Track(s, p, Action(t, Emit(n))))
  {
    assert ThreadOk(s, p, t);
    var s', p' := Apply(s, Action(t, Emit(n))), Track(s, p, Action(t, Emit(n)));
    Kept(s, p, s', p', t, t, |s'.owner|, s.made);
  }

  lemma CreateInv(s: State, p: Places, t: Tid)
    requires Inv(s, p) && Enabled(s, Action(t, Create))
    ensures Inv(Apply(s, Action(t, Create)), Track(s, p, Action(t, Create)))
  {
    assert ThreadOk(s, p, t);
    var s', p' := Apply(s, Action(t, Create)), Track(s, p, Action(t, Create));
    Kept(s, p, s', p', t, t, |s.owner|, s.made);
  }

  lemma RetrieveInv(s: State, p: Places, t: Tid)
    requires Inv(s, p) && Enabled(s, Action(t, Retrieve))
    ensures Inv(Apply(s, Action(t, Retrieve)), Track(s, p, Action(t, Retrieve)))
  {
    assert ThreadOk(s, p, t);
    FirstAndRest(s.threads[t].buffer);
    var w := s.threads[t].buffer[0];
    assert ItemOk(s, p, w.item);
    var s', p' := Apply(s, Action(t, Retrieve)), Track(s, p, Action(t, Retrieve));
    Kept(s, p, s', p', t, t, |s'.owner|, w.item);
  }

  lemma TakingThread(s: State, p: Places, t: Tid)
    requires Inv(s, p) && Enabled(s, Action(t, TakeStolen))
    ensures var s', p' := Apply(s, Action(t, TakeStolen)), Track(s, p, Action(t, TakeStolen));
            Sizes(s', p') && t < |s'.threads| && ThreadOk(s', p', t)
  {
    assert ThreadOk(s, p, t);
    FirstAndRest(s.threads[t].stolen);
    assert NodeOk(s, p, s.threads[t].stolen[0]);
  }

  lemma TakeStolenInv(s: State, p: Places, t: Tid)
    requires Inv(s, p) && Enabled(s, Action(t, TakeStolen))
    ensures Inv(Apply(s, Action(t, TakeStolen)), Track(s, p, Action(t, TakeStolen)))
  {
    TakingThread(s, p, t);
    assert ThreadOk(s, p, t);
    var stolen := s.threads[t].stolen;
    var n := stolen[0];
    assert NodeAt(p, n, OnStolen(t)) && NodeOk(s, p, n);
    assert forall m :: m in stolen && m != n ==> m in stolen[1..];
    hide NoDup, RunOk, StolenOk, BufferOk;
    var s', p' := Apply(s, Action(t, TakeStolen)), Track(s, p, Action(t, TakeStolen));
    Kept(s, p, s', p', t, t, n, s'.made);
  }

  lemma RequestInv(s: State, p: Places, t: Tid, target: Tid)
    requires Inv(s, p) && Enabled(s, Action(t, Request(target)))
    ensures Inv(Apply(s, Action(t, Request(target))), Track(s, p, Action(t, Request(target))))
  {
    assert ThreadOk(s, p, t);
    assert ThreadOk(s, p, target);
    var s', p' := Apply(s, Action(t, Request(target))), Track(s, p, Action(t, Request(target)));
    Kept(s, p, s', p', t, target, |s'.owner|, s'.made);
  }

  lemma AnswerInv(s: State, p: Places, t: Tid)
    requires Inv(s, p) && Enabled(s, Action(t, Answer))
    ensures Inv(Apply(s, Action(t, Answer)), Track(s, p, Action(t, Answer)))
  {
    assert ThreadOk(s, p, t);
    var requests := s.threads[t].requests;
    assert requests[0] in requests && forall r :: r in requests[1..] ==> r in requests;
    var s', p' := Apply(s, Action(t, Answer)), Track(s, p, Action(t, Answer));
    Kept(s, p, s', p', t, t, |s'.owner|, s'.made);
  }

  lemma PopNodeInv(s: State, p: Places, t: Tid)
    requires Inv(s, p) && Enabled(s, Action(t, PopNode))
    ensures Inv(Apply(s, Action(t, PopNode)), Track(s, p, Action(t, PopNode)))
  {
    assert ThreadOk(s, p, t);
    FirstAndRest(s.threads[t].run);
    var n := s.threads[t].run[0];
    assert NodeOk(s, p, n);
    var s', p' := Apply(s, Action(t, PopNode)), Track(s, p, Action(t, PopNode));
    Kept(s, p, s', p', t, t, n, s'.made);
  }

  lemma ConsumeInv(s: State, p: Places, t: Tid, k: nat)
    requires Inv(s, p) && Enabled(s, Action(t, Consume(k)))
    ensures Inv(Apply(s, Action(t, Consume(k))), Track(s, p, Action(t, Consume(k))))
  {
    assert ThreadOk(s, p, t);
    var n := s.threads[t].current.value;
    assert NodeOk(s, p, n);
    SplitAt(s.pending[n], k);
    var i := s.pending[n][k];
    assert ItemOk(s, p, i);
    var s', p' := Apply(s, Action(t, Consume(k))), Track(s, p, Action(t, Consume(k)));
    Kept(s, p, s', p', t, t, n, i);
  }

  lemma DoubtInv(s: State, p: Places, t: Tid)
    requires Inv(s, p) && Enabled(s, Action(t, Doubt))
    ensures Inv(Apply(s, Action(t, Doubt)), Track(s, p, Action(t, Doubt)))
  {
    assert ThreadOk(s, p, t);
    var s', p' := Apply(s, Action(t, Doubt)), Track(s, p, Action(t, Doubt));
    Kept(s, p, s', p', t, t, |s'.owner|, s'.made);
  }

  lemma RouteInv(s: State, p: Places, t: Tid)
    requires Inv(s, p) && Enabled(s, Action(t, Next)) && s.threads[t].pc.Routing?
    ensures Inv(Continue(s, t), TrackNext(s, p, t))
  {
    assert ThreadOk(s, p, t);
    var th := s.threads[t];
    assert NodeOk(s, p, th.pc.w.node);
    Kept(s, p, Continue(s, t), TrackNext(s, p, t), t, t, |s.owner|, s.made);
  }

  lemma SentThreads(s: State, p: Places, t: Tid)
    requires Inv(s, p) && Enabled(s, Action(t, Next)) && s.threads[t].pc.Sending?
    ensures var s', p', to := Continue(s, t), TrackNext(s, p, t), s.threads[t].pc.to;
            Sizes(s', p') && |s'.threads| == |s.threads| && ThreadOk(s', p', t) && ThreadOk(s', p', to)
  {
    var pc := s.threads[t].pc;
    assert ThreadOk(s, p, t) && ThreadOk(s, p, pc.to);
    Snoc(s.threads[pc.to].buffer, pc.w);
  }

  lemma SendInv(s: State, p: Places, t: Tid)
    requires Inv(s, p) && Enabled(s, Action(t, Next)) && s.threads[t].pc.Sending?
    ensures Inv(Continue(s, t), TrackNext(s, p, t))
  {
    assert ThreadOk(s, p, t);
    var pc := s.threads[t].pc;
    assert ItemOk(s, p, pc.w.item);
    SentThreads(s, p, t);
    Kept(s, p, Continue(s, t), TrackNext(s, p, t), t, pc.to, |s.owner|, pc.w.item);
  }

  lemma AddedThread(s: State, p: Places, t: Tid)
    requires Inv(s, p) && Enabled(s, Action(t, Next)) && s.threads[t].pc.Adding?
    ensures var s', p' := Continue(s, t), TrackNext(s, p, t);
            Sizes(s', p') && t < |s'.threads| && ThreadOk(s', p', t)
  {
    assert ThreadOk(s, p, t);
    var th := s.threads[t];
    assert NodeOk(s, p, th.pc.w.node);
  }

  lemma AddInv(s: State, p: Places, t: Tid)
    requires Inv(s, p) && Enabled(s, Action(t, Next)) && s.threads[t].pc.Adding?
    ensures Inv(Continue(s, t), TrackNext(s, p, t))
  {
    AddedThread(s, p, t);
    hide RunOk, StolenOk, BufferOk;
    assert ThreadOk(s, p, t);
    var th := s.threads[t];
    var n := th.pc.w.node;
    assert NodeOk(s, p, n) && ItemOk(s, p, th.pc.w.item);
    Snoc(s.pending[n], th.pc.w.item);
    Kept(s, p, Continue(s, t), TrackNext(s, p, t), t, t, n, th.pc.w.item);
  }

  lemma CheckedThread(s: State, p: Places, t: Tid)
    requires Inv(s, p) && Enabled(s, Action(t, Next)) && s.threads[t].pc.Checking?
    ensures var s', p' := Continue(s, t), TrackNext(s, p, t);
            Sizes(s', p') && t < |s'.threads| && ThreadOk(s', p', t)
  {
    assert ThreadOk(s, p, t);
    var th := s.threads[t];
    assert NodeOk(s, p, th.pc.n);
    Snoc(th.run, th.pc.n);
  }

  lemma CheckInv(s: State, p: Places, t: Tid)
    requires Inv(s, p) && Enabled(s, Action(t, Next)) && s.threads[t].pc.Checking?
    ensures Inv(Continue(s, t), TrackNext(s, p, t))
  {
    CheckedThread(s, p, t);
    hide NoDup, RunOk, StolenOk, BufferOk;
    assert ThreadOk(s, p, t);
    var n, retrieved := s.threads[t].pc.n, s.threads[t].pc.retrieved;
    assert NodeOk(s, p, n);
    if s.flag[n] || (retrieved && s.moving[n]) {
      Kept(s, p, Continue(s, t), TrackNext(s, p, t), t, t, n, s.made);
    } else {
      Kept(s, p, Continue(s, t), TrackNext(s, p, t), t, t, n, s.made);
    }
  }

  lemma FlagInv(s: State, p: Places, t: Tid)
    requires Inv(s, p) && Enabled(s, Action(t, Next)) && s.threads[t].pc.Flagging?
    ensures Inv(Continue(s, t), TrackNext(s, p, t))
  {
    assert ThreadOk(s, p, t);
    var th := s.threads[t];
    assert NodeOk(s, p, th.pc.n);
    Kept(s, p, Continue(s, t), TrackNext(s, p, t), t, t, th.pc.n, s.made);
  }

  lemma GivingThread(s: State, p: Places, t: Tid)
    requires Inv(s, p) && Enabled(s, Action(t, Next)) && s.threads[t].pc.Giving?
    ensures var s', p' := Continue(s, t), TrackNext(s, p, t);
            Sizes(s', p') && t < |s'.threads| && ThreadOk(s', p', t)
  {
    assert ThreadOk(s, p, t);
    var th := s.threads[t];
    if th.run != [] {
      FirstAndRest(th.run);
    }
    assert th.pc.left > 0 && th.run != [] ==> NodeAt(p, th.run[0], OnRun(t)) && NodeOk(s, p, th.run[0]);
  }

  lemma GiveInv(s: State, p: Places, t: Tid)
    requires Inv(s, p) && Enabled(s, Action(t, Next)) && s.threads[t].pc.Giving?
    ensures Inv(Continue(s, t), TrackNext(s, p, t))
  {
    GivingThread(s, p, t);
    assert ThreadOk(s, p, t);
    var run := s.threads[t].run;
    if s.threads[t].pc.left > 0 && run != [] {
      assert NodeAt(p, run[0], OnRun(t)) && NodeOk(s, p, run[0]);
      assert forall m :: m in run && m != run[0] ==> m in run[1..];
      hide NoDup, RunOk, StolenOk, BufferOk;
      Kept(s, p, Continue(s, t), TrackNext(s, p, t), t, t, run[0], s.made);
    } else {
      Kept(s, p, Continue(s, t), TrackNext(s, p, t), t, t, |s.owner|, s.made);
    }
  }

  lemma PickedInv(s: State, p: Places, t: Tid)
    requires Inv(s, p) && Enabled(s, Action(t, Next)) && s.threads[t].pc.Picked?
    ensures Inv(Continue(s, t), TrackNext(s, p, t))
  {
    assert ThreadOk(s, p, t);
    var th := s.threads[t];
    assert NodeOk(s, p, th.pc.n);
    Kept(s, p, Continue(s, t), TrackNext(s, p, t), t, t, th.pc.n, s.made);
  }

  lemma MarkedInv(s: State, p: Places, t: Tid)
    requires Inv(s, p) && Enabled(s, Action(t, Next)) && s.threads[t].pc.Marked?
    ensures Inv(Continue(s, t), TrackNext(s, p, t))
  {
    assert ThreadOk(s, p, t);
    var th := s.threads[t];
    assert NodeOk(s, p, th.pc.n);
    Kept(s, p, Continue(s, t), TrackNext(s, p, t), t, t, th.pc.n, s.made);
  }

  lemma HandedThreads(s: State, p: Places, t: Tid)
    requires Inv(s, p) && Enabled(s, Action(t, Next)) && s.threads[t].pc.Handed?
    ensures var s', p', to := Continue(s, t), TrackNext(s, p, t), s.threads[t].pc.to;
            Sizes(s', p') && |s'.threads| == |s.threads| && ThreadOk(s', p', t) && ThreadOk(s', p', to)
  {
    var pc := s.threads[t].pc;
    assert ThreadOk(s, p, t) && ThreadOk(s, p, pc.to);
    Snoc(s.threads[pc.to].stolen, pc.n);
  }

  lemma HandedInv(s: State, p: Places, t: Tid)
    requires Inv(s, p) && Enabled(s, Action(t, Next)) && s.threads[t].pc.Handed?
    ensures Inv(Continue(s, t), TrackNext(s, p, t))
  {
    assert ThreadOk(s, p, t);
    var pc := s.threads[t].pc;
    assert NodeOk(s, p, pc.n);
    HandedThreads(s, p, t);
    Kept(s, p, Continue(s, t), TrackNext(s, p, t), t, pc.to, pc.n, s.made);
  }

  lemma TakenInv(s: State, p: Places, t: Tid)
    requires Inv(s, p) && Enabled(s, Action(t, Next)) && s.threads[t].pc.Taking?
    ensures Inv(Continue(s, t), TrackNext(s, p, t))
  {
    assert ThreadOk(s, p, t);
    var th := s.threads[t];
    assert NodeOk(s, p, th.pc.n);
    Kept(s, p, Continue(s, t), TrackNext(s, p, t), t, t, th.pc.n, s.made);
  }

  lemma SettledInv(s: State, p: Places, t: Tid)
    requires Inv(s, p) && Enabled(s, Action(t, Next)) && s.threads[t].pc.Settling?
    ensures Inv(Continue(s, t), TrackNext(s, p, t))
  {
    assert ThreadOk(s, p, t);
    var th := s.threads[t];
    assert NodeOk(s, p, th.pc.n);
    Snoc(th.run, th.pc.n);
    Kept(s, p, Continue(s, t), TrackNext(s, p, t), t, t, th.pc.n, s.made);
  }

  lemma DoubtedInv(s: State, p: Places, t: Tid)
    requires Inv(s, p) && Enabled(s, Action(t, Next)) && s.threads[t].pc.Doubting?
    ensures Inv(Continue(s, t), TrackNext(s, p, t))
  {
    assert ThreadOk(s, p, t);
    var th := s.threads[t];
    assert NodeOk(s, p, th.pc.n);
    Kept(s, p, Continue(s, t), TrackNext(s, p, t), t, t, th.pc.n, s.made);
  }

  /** Whatever happens, in whatever order, keeps the invariant. */
  lemma StepInv(s: State, p: Places, a: Action)
    requires Inv(s, p) && Enabled(s, a)
    ensures Inv(Apply(s, a), Track(s, p, a))
  {
    match a.move
    case Next => NextInv(s, p, a.t);
    case Emit(n) => EmitInv(s, p, a.t, n);
    case Create => CreateInv(s, p, a.t);
    case Retrieve => RetrieveInv(s, p, a.t);
    case TakeStolen => TakeStolenInv(s, p, a.t);
    case Request(target) => RequestInv(s, p, a.t, target);
    case Answer => AnswerInv(s, p, a.t);
    case PopNode => PopNodeInv(s, p, a.t);
    case Consume(k) => ConsumeInv(s, p, a.t, k);
    case Doubt => DoubtInv(s, p, a.t);
  }

  lemma NextInv(s: State, p: Places, t: Tid)
    requires Inv(s, p) && Enabled(s, Action(t, Next))
    ensures Inv(Continue(s, t), TrackNext(s, p, t))
  {
    match s.threads[t].pc
    case Routing(_, _) => RouteInv(s, p, t);
    case Sending(_, _) => SendInv(s, p, t);
    case Adding(_, _) => AddInv(s, p, t);
    case Checking(_, _) => CheckInv(s, p, t);
    case Flagging(_) => FlagInv(s, p, t);
    case Giving(_, _) => GiveInv(s, p, t);
    case Picked(_, _, _) => PickedInv(s, p, t);
    case Marked(_, _, _) => MarkedInv(s, p, t);
    case Handed(_, _, _) => HandedInv(s, p, t);
    case Taking(_) => TakenInv(s, p, t);
    case Settling(_) => SettledInv(s, p, t);
    case Doubting(_) => DoubtedInv(s, p, t);
  }

  // ---------------------------------------------------------------- runs

  /** The nodes of a thread, in order. */
  function Owned(owners: seq<Tid>, t: Tid): seq<NodeId> {
    if owners == [] then []
    else Owned(owners[..|owners| - 1], t) + (if owners[|owners| - 1] == t then [|owners| - 1] else [])
  }

  /** After `init`: every node is queued at its owner with its first tuple. */
  function Init(threads: nat, owners: seq<Tid>): State {
    State(seq(threads, t requires 0 <= t => Thread(Owned(owners, t), [], [], [], None, Free)), owners,
          seq(|owners|, _ => true), seq(|owners|, _ => false), seq(|owners|, n requires 0 <= n => [n]), |owners|)
  }

  ghost function InitPlaces(owners: seq<Tid>): Places {
    Places(seq(|owners|, n requires 0 <= n < |owners| => OnRun(owners[n])), seq(|owners|, n requires 0 <= n => AtNode(n)),
           seq(|owners|, n requires 0 <= n => n))
  }

  lemma {:induction false} OwnedIs(owners: seq<Tid>, t: Tid)
    ensures NoDup(Owned(owners, t))
    ensures forall n: NodeId :: n in Owned(owners, t) <==> n < |owners| && owners[n] == t
  {
    if owners != [] {
      var init := owners[..|owners| - 1];
      OwnedIs(init, t);
      if owners[|owners| - 1] == t {
        Snoc<NodeId>(Owned(init, t), |owners| - 1);
      } else {
        assert Owned(owners, t) == Owned(init, t);
      }
      assert forall n :: 0 <= n < |init| ==> init[n] == owners[n];
    }
  }

  lemma InitInv(threads: nat, owners: seq<Tid>)
    requires forall n :: 0 <= n < |owners| ==> owners[n] < threads
    ensures Inv(Init(threads, owners), InitPlaces(owners))
  {
    var s, p := Init(threads, owners), InitPlaces(owners);
    forall t | 0 <= t < threads ensures ThreadOk(s, p, t) {
      OwnedIs(owners, t);
    }
    forall n | 0 <= n < |owners| ensures NodeOk(s, p, n) {
      OwnedIs(owners, owners[n]);
    }
  }

  ghost predicate CanRun(s: State, actions: seq<Action>)
    decreases |actions|
  {
    actions == [] || (Enabled(s, actions[0]) && CanRun(Apply(s, actions[0]), actions[1..]))
  }

  ghost function Run(s: State, actions: seq<Action>): State
    requires CanRun(s, actions)
    decreases |actions|
  {
    if actions == [] then s else Run(Apply(s, actions[0]), actions[1..])
  }

  lemma {:induction false} RunInv(s: State, p: Places, actions: seq<Action>) returns (p': Places)
    requires Inv(s, p) && CanRun(s, actions)
    ensures Inv(Run(s, actions), p')
    decreases |actions|
  {
    if actions == [] {
      p' := p;
    } else {
      StepInv(s, p, actions[0]);
      p' := RunInv(Apply(s, actions[0]), Track(s, p, actions[0]), actions[1..]);
    }
  }

  /** The tuples consumed in a run, in order. */
  ghost function Eaten(s: State, actions: seq<Action>): seq<Item>
    requires CanRun(s, actions)
    decreases |actions|
  {
    if actions == [] then []
    else EatenNow(s, actions[0]) + Eaten(Apply(s, actions[0]), actions[1..])
  }

  ghost function EatenNow(s: State, a: Action): seq<Item>
    requires Enabled(s, a)
  {
    if a.move.Consume? then [s.pending[s.threads[a.t].current.value][a.move.k]] else []
  }

  /** What has been consumed is what the record says, each tuple once. */
  ghost predicate Counted(s: State, p: Places, eaten: seq<Item>)
    requires Sizes(s, p)
  {
    NoDup(eaten) && forall i: Item :: i in eaten <==> i < s.made && p.item[i] == Consumed
  }

  lemma EatStep(s: State, p: Places, eaten: seq<Item>, a: Action)
    requires Inv(s, p) && Counted(s, p, eaten) && Enabled(s, a)
    ensures Inv(Apply(s, a), Track(s, p, a)) && Counted(Apply(s, a), Track(s, p, a), eaten + EatenNow(s, a))
  {
    StepInv(s, p, a);
    var s', p' := Apply(s, a), Track(s, p, a);
    forall i | 0 <= i < s'.made ensures i in eaten + EatenNow(s, a) <==> p'.item[i] == Consumed {
      if i < s.made {
        OnlyConsumeConsumes(s, p, a, i);
      }
    }
    if a.move.Consume? {
      var n := s.threads[a.t].current.value;
      assert ThreadOk(s, p, a.t) && NodeOk(s, p, n);
      assert s.pending[n][a.move.k] in s.pending[n];
      Snoc(eaten, s.pending[n][a.move.k]);
    } else {
      assert eaten + [] == eaten;
    }
  }

  lemma {:induction false} RunEats(s: State, p: Places, eaten: seq<Item>, actions: seq<Action>) returns (p': Places)
    requires Inv(s, p) && Counted(s, p, eaten) && CanRun(s, actions)
    ensures Inv(Run(s, actions), p') && Counted(Run(s, actions), p', eaten + Eaten(s, actions))
    decreases |actions|
  {
    hide Inv, Counted, Apply, Track, Enabled, EatenNow;
    if actions == [] {
      p' := p;
      assert eaten + [] == eaten;
    } else {
      EatStep(s, p, eaten, actions[0]);
      p' := RunEats(Apply(s, actions[0]), Track(s, p, actions[0]), eaten + EatenNow(s, actions[0]), actions[1..]);
      assert eaten + (EatenNow(s, actions[0]) + Eaten(Apply(s, actions[0]), actions[1..]))
          == eaten + EatenNow(s, actions[0]) + Eaten(Apply(s, actions[0]), actions[1..]);
    }
  }

  lemma InitEats(threads: nat, owners: seq<Tid>, actions: seq<Action>) returns (p: Places)
    requires (forall m :: 0 <= m < |owners| ==> owners[m] < threads) && CanRun(Init(threads, owners), actions)
    ensures Inv(Run(Init(threads, owners), actions), p)
    ensures Counted(Run(Init(threads, owners), actions), p, Eaten(Init(threads, owners), actions))
  {
    InitInv(threads, owners);
    p := RunEats(Init(threads, owners), InitPlaces(owners), [], actions);
    assert [] + Eaten(Init(threads, owners), actions) == Eaten(Init(threads, owners), actions);
  }

  // ---------------------------------------------------------------- what the invariant means

  /** The node is found at this place of the state. */
  ghost predicate Occupies(s: State, place: NodePlace, n: NodeId) {
    match place
    case Nowhere => false
    case OnRun(t) => t < |s.threads| && n in s.threads[t].run
    case OnStolen(t) => t < |s.threads| && n in s.threads[t].stolen
    case AsCurrent(t) => t < |s.threads| && s.threads[t].current == Some(n)
    case InHand(t) => t < |s.threads| && HeldNode(s.threads[t].pc) == Some(n)
  }

  /** The thread of a place owns the nodes there, except while it is handing one over. */
  ghost predicate OwnPlace(s: State, place: NodePlace, n: NodeId)
    requires n < |s.owner|
  {
    match place
    case Nowhere => true
    case OnRun(t) => s.owner[n] == t
    case OnStolen(t) => s.owner[n] == t
    case AsCurrent(t) => s.owner[n] == t
    case InHand(t) => t < |s.threads| && s.owner[n] == if s.threads[t].pc.Handed? then s.threads[t].pc.to else t
  }

  lemma PlaceUnique(s: State, p: Places, n: NodeId, q: NodePlace)
    requires Inv(s, p) && n < |s.owner|
    ensures Occupies(s, q, n) <==> q == p.node[n] && q != Nowhere
  {
    assert NodeOk(s, p, n);
    match q
    case Nowhere =>
    case OnRun(t) => assert t < |s.threads| ==> ThreadOk(s, p, t);
    case OnStolen(t) => assert t < |s.threads| ==> ThreadOk(s, p, t);
    case AsCurrent(t) => assert t < |s.threads| ==> ThreadOk(s, p, t);
    case InHand(t) => assert t < |s.threads| ==> ThreadOk(s, p, t);
  }

  /** After any run from the start: a node flagged `in_queue` is in exactly one place, once, and it is
      a place of its owner. */
  lemma OnePlace(threads: nat, owners: seq<Tid>, actions: seq<Action>, n: NodeId) returns (place: NodePlace)
    requires (forall m :: 0 <= m < |owners| ==> owners[m] < threads) && CanRun(Init(threads, owners), actions)
    requires n < |Run(Init(threads, owners), actions).owner|
    ensures var s := Run(Init(threads, owners), actions);
            && |s.flag| == |s.owner|
            && (forall t :: 0 <= t < |s.threads| ==> NoDup(s.threads[t].run) && NoDup(s.threads[t].stolen))
            && (s.flag[n] ==> Occupies(s, place, n) && OwnPlace(s, place, n))
            && forall q :: Occupies(s, q, n) ==> q == place
  {
    InitInv(threads, owners);
    var s := Run(Init(threads, owners), actions);
    var p := RunInv(Init(threads, owners), InitPlaces(owners), actions);
    place := p.node[n];
    assert NodeOk(s, p, n);
    PlaceUnique(s, p, n, place);
    if place.InHand? {
      assert ThreadOk(s, p, place.t);
    }
    forall q | Occupies(s, q, n) ensures q == place {
      PlaceUnique(s, p, n, q);
    }
    forall t | 0 <= t < |s.threads| ensures NoDup(s.threads[t].run) && NoDup(s.threads[t].stolen) {
      assert ThreadOk(s, p, t);
    }
  }

  /** No node is run by two threads, and only its owner runs it. */
  lemma OneRunner(s: State, p: Places, n: NodeId, t: Tid, u: Tid)
    requires Inv(s, p) && t < |s.threads| && u < |s.threads| && n < |s.owner|
    requires s.threads[t].current == Some(n) && s.threads[u].current == Some(n)
    ensures t == u && s.owner[n] == t && s.flag[n] && !s.moving[n]
  {
    assert NodeOk(s, p, n);
    PlaceUnique(s, p, n, AsCurrent(t));
    PlaceUnique(s, p, n, AsCurrent(u));
  }

  /** A node with tuples is flagged, or its owner is just about to flag it: no wake-up is lost. */
  lemma PendingFlagged(s: State, p: Places, n: NodeId)
    requires Inv(s, p) && n < |s.owner| && s.pending[n] != []
    ensures s.flag[n] || (s.owner[n] < |s.threads| && Alerting(s.threads[s.owner[n]].pc, n))
  {
    assert NodeOk(s, p, n);
  }

  /** Where a tuple can be found in the state. */
  ghost predicate Carries(s: State, place: ItemPlace, i: Item) {
    match place
    case InBuffer(t) => t < |s.threads| && exists w :: w in s.threads[t].buffer && w.item == i
    case WithThread(t) => t < |s.threads| && HeldWork(s.threads[t].pc).Some? && HeldWork(s.threads[t].pc).value.item == i
    case AtNode(n) => n < |s.pending| && i in s.pending[n]
    case Consumed => false
  }

  lemma CarriedOnce(s: State, p: Places, i: Item, q: ItemPlace)
    requires Inv(s, p) && i < s.made
    ensures Carries(s, q, i) <==> q == p.item[i] && q != Consumed
  {
    assert ItemOk(s, p, i);
    if Carries(s, q, i) {
      match q {
        case InBuffer(t) =>
          assert ThreadOk(s, p, t);
          var w :| w in s.threads[t].buffer && w.item == i;
          assert ItemAt(p, w, InBuffer(t));
        case WithThread(t) => assert ThreadOk(s, p, t);
        case AtNode(n) => assert NodeOk(s, p, n);
      }
    }
  }

  /** After any run: a tuple that was made has been consumed, once, or else it is in exactly one buffer, in
      one thread's hand, or in the queue of the node it was made for; no buffer or queue has it twice. */
  lemma ItemsConserved(threads: nat, owners: seq<Tid>, actions: seq<Action>, i: Item)
    returns (place: ItemPlace, node: NodeId)
    requires (forall m :: 0 <= m < |owners| ==> owners[m] < threads) && CanRun(Init(threads, owners), actions)
    requires i < Run(Init(threads, owners), actions).made
    ensures var s := Run(Init(threads, owners), actions);
            && (place == Consumed <==> i in Eaten(Init(threads, owners), actions))
            && NoDup(Eaten(Init(threads, owners), actions))
            && (forall q :: Carries(s, q, i) <==> q == place && q != Consumed)
            && (place.AtNode? ==> place.n == node)
            && (forall t, w :: 0 <= t < |s.threads| && w in s.threads[t].buffer && w.item == i ==> w.node == node)
            && (forall t :: 0 <= t < |s.threads| ==> NoDup(s.threads[t].buffer))
            && (forall n :: 0 <= n < |s.pending| ==> NoDup(s.pending[n]))
  {
    var s := Run(Init(threads, owners), actions);
    var p := InitEats(threads, owners, actions);
    place, node := p.item[i], p.dest[i];
    assert ItemOk(s, p, i);
    forall q ensures Carries(s, q, i) <==> q == place && q != Consumed {
      CarriedOnce(s, p, i, q);
    }
    forall t, w | 0 <= t < |s.threads| && w in s.threads[t].buffer && w.item == i ensures w.node == node {
      assert ThreadOk(s, p, t);
      assert ItemAt(p, w, InBuffer(t));
    }
    forall t | 0 <= t < |s.threads| ensures NoDup(s.threads[t].buffer) {
      assert ThreadOk(s, p, t);
    }
    forall n | 0 <= n < |s.pending| ensures NoDup(s.pending[n]) {
      assert NodeOk(s, p, n);
    }
  }

  /** The record says consumed exactly for what has been taken from a node's queue to be run. */
  lemma OnlyConsumeConsumes(s: State, p: Places, a: Action, i: Item)
    requires Inv(s, p) && Enabled(s, a) && i < s.made
    ensures Track(s, p, a).item[i] == Consumed <==>
              p.item[i] == Consumed
              || (a.move.Consume? && s.pending[s.threads[a.t].current.value][a.move.k] == i)
  {
    assert ThreadOk(s, p, a.t);
    var th := s.threads[a.t];
    if a.move.Consume? {
      assert NodeOk(s, p, th.current.value);
      assert s.pending[th.current.value][a.move.k] in s.pending[th.current.value];
    } else if a.move.Retrieve? {
      assert th.buffer[0] in th.buffer;
    }
  }

  /** A thread changes the tuple queue only of a node that it owns, even if the owner has changed
      since the tuple was sent. */
  lemma ChangesOnlyOwn(s: State, p: Places, a: Action, n: NodeId)
    requires Inv(s, p) && Enabled(s, a) && n < |s.owner|
    requires n < |Apply(s, a).pending| && Apply(s, a).pending[n] != s.pending[n]
    ensures s.owner[n] == a.t
  {
    assert ThreadOk(s, p, a.t);
    assert NodeOk(s, p, n);
  }

  /** The assertions of `answer_steal_requests`, `check_stolen_nodes`, `set_next_node`, `finish_work` and
      `set_in_queue`: of the nodes in queues, of the node in hand after a pop, and of the current node. */
  lemma AssertionsHold(s: State, p: Places, t: Tid)
    requires Inv(s, p) && t < |s.threads|
    ensures var th := s.threads[t];
            && (forall n :: n in th.run ==> n < |s.owner| && s.owner[n] == t && th.current != Some(n)
                                            && (s.flag[n] || th.pc == Flagging(n)))
            && (forall n :: n in th.stolen ==> n < |s.owner| && s.owner[n] == t && s.flag[n])
            && (HeldNode(th.pc).Some? ==>
                  var n := HeldNode(th.pc).value;
                  n < |s.owner| && s.flag[n] && th.current != Some(n) && (s.owner[n] == t || th.pc.Handed?))
            && (th.current.Some? ==> th.current.value < |s.owner| && s.flag[th.current.value] && s.owner[th.current.value] == t)
            && (th.pc.Flagging? ==> th.pc.n < |s.owner| && !s.flag[th.pc.n])
            && (th.pc.Doubting? ==> th.pc.n < |s.owner| && s.flag[th.pc.n] && s.pending[th.pc.n] == [])
            && (th.pc.Giving? ==> th.pc.to < |s.threads| && th.pc.to != t)
  {
    var th := s.threads[t];
    assert ThreadOk(s, p, t);
    forall n | n in th.run
      ensures n < |s.owner| && s.owner[n] == t && th.current != Some(n) && (s.flag[n] || th.pc == Flagging(n))
    {
      assert NodeAt(p, n, OnRun(t)) && NodeOk(s, p, n);
    }
    forall n | n in th.stolen ensures n < |s.owner| && s.owner[n] == t && s.flag[n] {
      assert NodeAt(p, n, OnStolen(t)) && NodeOk(s, p, n);
    }
    if th.current.Some? {
      assert NodeOk(s, p, th.current.value);
    }
    if HeldNode(th.pc).Some? {
      assert NodeOk(s, p, HeldNode(th.pc).value);
    }
  }

  /** The assertion at the end of `new_work`: the node is flagged when the operation ends. */
  lemma AddedFlagged(s: State, p: Places, t: Tid, n: NodeId)
    requires Inv(s, p) && Enabled(s, Action(t, Next))
    requires s.threads[t].pc == Flagging(n) || s.threads[t].pc == Checking(n, false)
    ensures Continue(s, t).threads[t].pc == Flagging(n) || (Continue(s, t).threads[t].pc == Free && Continue(s, t).flag[n])
  {
    assert ThreadOk(s, p, t);
  }

  /** The thread has something to do. */
  predicate Busy(th: Thread) {
    th.run != [] || th.buffer != [] || th.stolen != [] || th.current.Some? || !th.pc.Free?
  }

  ghost predicate Quiet(s: State) {
    forall t :: 0 <= t < |s.threads| ==> !Busy(s.threads[t])
  }

  /** A tuple that is not consumed keeps a thread busy: the owner of its node, the thread that has it in
      its buffer or hand, or the thread that is handing the node over. */
  lemma WorkKeepsBusy(s: State, p: Places, i: Item) returns (t: Tid)
    requires Inv(s, p) && i < s.made && p.item[i] != Consumed
    ensures t < |s.threads| && Busy(s.threads[t])
  {
    assert ItemOk(s, p, i);
    match p.item[i] {
      case InBuffer(u) => t := u;
      case WithThread(u) => t := u;
      case AtNode(n) =>
        assert NodeOk(s, p, n);
        t := match p.node[n] case OnRun(u) => u case OnStolen(u) => u case AsCurrent(u) => u case InHand(u) => u
                             case Nowhere => s.owner[n];
    }
  }

  /** When no thread has anything to do, every tuple ever made has been consumed and no node is flagged. */
  lemma QuietMeansDone(threads: nat, owners: seq<Tid>, actions: seq<Action>)
    requires (forall m :: 0 <= m < |owners| ==> owners[m] < threads) && CanRun(Init(threads, owners), actions)
    requires Quiet(Run(Init(threads, owners), actions))
    ensures var s := Run(Init(threads, owners), actions);
            && (forall i :: 0 <= i < s.made ==> i in Eaten(Init(threads, owners), actions))
            && (forall n :: 0 <= n < |s.flag| ==> !s.flag[n])
  {
    var s := Run(Init(threads, owners), actions);
    var p := InitEats(threads, owners, actions);
    forall i | 0 <= i < s.made ensures i in Eaten(Init(threads, owners), actions) {
      if p.item[i] != Consumed {
        var t := WorkKeepsBusy(s, p, i);
      }
    }
    forall n | 0 <= n < |s.flag| ensures !s.flag[n] {
      assert NodeOk(s, p, n);
      PlaceUnique(s, p, n, p.node[n]);
    }
  }

  /** A busy thread can always take a step. */
  lemma NeverStuck(s: State, p: Places, t: Tid) returns (m: Move)
    requires Inv(s, p) && t < |s.threads| && Busy(s.threads[t])
    ensures Enabled(s, Action(t, m)) && !m.Emit? && !m.Create? && !m.Request? && !m.Answer?
  {
    var th := s.threads[t];
    assert ThreadOk(s, p, t);
    if !th.pc.Free? {
      m := Next;
    } else if th.current.Some? {
      m := if s.pending[th.current.value] == [] then Doubt else Consume(0);
    } else if th.buffer != [] {
      m := Retrieve;
    } else if th.stolen != [] {
      m := TakeStolen;
    } else {
      m := PopNode;
    }
  }

  // ---------------------------------------------------------------- the scheduler as an object

  class StaticScheduler {
    var threads: seq<Thread>
    var owner: seq<Tid>
    var flag: seq<bool>
    var moving: seq<bool>
    var pending: seq<seq<Item>>
    var made: Item
    ghost var places: Places

    ghost function Now(): State
      reads this
    {
      State(threads, owner, flag, moving, pending, made)
    }

    ghost predicate Valid()
      reads this
    {
      Inv(Now(), places)
    }

    constructor (n: nat, owners: seq<Tid>)
      requires forall m :: 0 <= m < |owners| ==> owners[m] < n
      ensures Valid() && Now() == Init(n, owners) && places == InitPlaces(owners)
    {
      threads := seq(n, t requires 0 <= t => Thread(Owned(owners, t), [], [], [], None, Free));
      owner, flag, moving := owners, seq(|owners|, _ => true), seq(|owners|, _ => false);
      pending, made := seq(|owners|, m requires 0 <= m => [m]), |owners|;
      places := InitPlaces(owners);
      new;
      InitInv(n, owners);
      assert threads == Init(n, owners).threads;
      assert pending == Init(n, owners).pending;
    }

    /** One atomic step of a thread. */
    method Turn(t: Tid, move: Move)
      requires Valid() && Enabled(Now(), Action(t, move))
      modifies this
      ensures Valid() && Now() == Apply(old(Now()), Action(t, move))
      ensures places == Track(old(Now()), old(places), Action(t, move))
    {
      StepInv(Now(), places, Action(t, move));
      places := Track(Now(), places, Action(t, move));
      if move.Next? {
        GoOn(t);
      } else {
        Start(t, move);
      }
    }

    /** The first access of an operation. */
    method Start(t: Tid, move: Move)
      requires Enabled(Now(), Action(t, move)) && !move.Next?
      modifies this`threads, this`owner, this`flag, this`moving, this`pending, this`made
      ensures Now() == Apply(old(Now()), Action(t, move))
    {
      var th := threads[t];
      match move {
        case Emit(n) =>
          var w := Work(n, made);
          made := made + 1;
          threads := threads[t := th.(pc := if owner[n] == t then Adding(w, false) else Routing(w, false))];
        case Create =>
          var w := Work(|owner|, made);
          owner, flag, moving, pending := owner + [t], flag + [false], moving + [false], pending + [[]];
          made := made + 1;
          threads := threads[t := th.(pc := Adding(w, false))];
        case Retrieve =>
          threads := threads[t := th.(buffer := th.buffer[1..], pc := Routing(th.buffer[0], true))];
        case TakeStolen =>
          threads := threads[t := th.(stolen := th.stolen[1..], pc := Taking(th.stolen[0]))];
        case Request(target) =>
          threads := threads[target := threads[target].(requests := threads[target].requests + [t])];
        case Answer =>
          threads := threads[t := th.(requests := th.requests[1..], pc := Giving(th.requests[0], StealSize(|th.run|)))];
        case PopNode =>
          threads := threads[t := th.(run := th.run[1..], current := Some(th.run[0]))];
        case Consume(k) =>
          var n := th.current.value;
          pending := pending[n := pending[n][..k] + pending[n][k + 1..]];
        case Doubt =>
          threads := threads[t := th.(pc := Doubting(th.current.value))];
      }
    }

    /** The next access of the operation under way. */
    method GoOn(t: Tid)
      requires Enabled(Now(), Action(t, Next))
      modifies this`threads, this`owner, this`flag, this`moving, this`pending
      ensures Now() == Continue(old(Now()), t)
    {
      var th := threads[t];
      match th.pc {
        case Routing(w, retrieved) =>
          var o := owner[w.node];
          threads := threads[t := th.(pc := if retrieved && o == t then Adding(w, true) else Sending(w, o))];
        case Sending(w, to) =>
          threads := threads[t := th.(pc := Free)];
          threads := threads[to := threads[to].(buffer := threads[to].buffer + [w])];
        case Adding(w, retrieved) =>
          pending := pending[w.node := pending[w.node] + [w.item]];
          threads := threads[t := th.(pc := Checking(w.node, retrieved))];
        case Checking(n, retrieved) =>
          if flag[n] || (retrieved && moving[n]) {
            threads := threads[t := th.(pc := Free)];
          } else {
            threads := threads[t := th.(run := th.run + [n], pc := Flagging(n))];
          }
        case Flagging(n) =>
          flag := flag[n := true];
          threads := threads[t := th.(pc := Free)];
        case Giving(to, left) =>
          if left > 0 && th.run != [] {
            threads := threads[t := th.(run := th.run[1..], pc := Picked(to, left - 1, th.run[0]))];
          } else {
            threads := threads[t := th.(pc := Free)];
          }
        case Picked(to, left, n) =>
          moving := moving[n := true];
          threads := threads[t := th.(pc := Marked(to, left, n))];
        case Marked(to, left, n) =>
          owner := owner[n := to];
          threads := threads[t := th.(pc := Handed(to, left, n))];
        case Handed(to, left, n) =>
          threads := threads[t := th.(pc := Giving(to, left))];
          threads := threads[to := threads[to].(stolen := threads[to].stolen + [n])];
        case Taking(n) =>
          moving := moving[n := false];
          threads := threads[t := th.(pc := Settling(n))];
        case Settling(n) =>
          threads := threads[t := th.(run := th.run + [n], pc := Free)];
        case Doubting(n) =>
          if pending[n] == [] {
            flag := flag[n := false];
            threads := threads[t := th.(current := None, pc := Free)];
          } else {
            threads := threads[t := th.(pc := Free)];
          }
      }
    }
  }

  // ---------------------------------------------------------------- sequences

  lemma FirstAndRest<T>(a: seq<T>)
    requires a != [] && NoDup(a)
    ensures a[0] in a && NoDup(a[1..]) && forall x :: x in a <==> x == a[0] || x in a[1..]
    ensures a[0] !in a[1..]
  {
    NoDupTail(a);
    assert a == [a[0]] + a[1..];
  }

  lemma Snoc<T>(a: seq<T>, x: T)
    requires NoDup(a)
    ensures x !in a ==> NoDup(a + [x])
    ensures forall y :: y in a + [x] <==> y == x || y in a
  {
    if x !in a {
      NoDupAppend(a, [x]);
    }
  }

  lemma SplitAt<T>(a: seq<T>, k: nat)
    requires NoDup(a) && k < |a|
    ensures a[k] in a && NoDup(a[..k] + a[k + 1..])
    ensures forall x :: x in a[..k] + a[k + 1..] <==> x != a[k] && x in a
  {
    assert a == a[..k] + [a[k]] + a[k + 1..];
    NoDupRemove(a[..k], a[k], a[k + 1..]);
  }
}
