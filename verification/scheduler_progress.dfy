/**
  The static scheduler (predicates/thread/static.cpp) comes to rest: once no more tuples are derived and no
  more steal requests are answered, the threads can take only a bounded number of steps, and until
  everything has been consumed one of them can take such a step.
*/
module SchedulerProgress {
  import opened Common
  import opened Scheduler

  // ---------------------------------------------------------------- what is still to be done

  /** What one more node to give away is worth: its hand-over, its way to the other thread's run queue, and
      for each tuple in a buffer or in a thread's hand another detour. */
  function GiftCost(made: nat, threads: nat): nat {
    8 + 3 * made + 3 * threads
  }

  /** The steps of the operation under way, and of what it leaves behind. */
  function PcCost(s: State, t: Tid, pc: Pc): nat {
    match pc
    case Free => 0
    case Routing(w, retrieved) => if retrieved && w.node < |s.owner| && s.owner[w.node] == t then 8 else 11
    case Sending(w, to) => if w.node < |s.owner| && s.owner[w.node] == to then 10 else 13
    case Adding(_, _) => 7
    case Checking(_, _) => 5
    case Flagging(_) => 1
    case Giving(_, left) => 1 + left * GiftCost(s.made, |s.threads|)
    case Picked(_, left, _) => 3 + left * GiftCost(s.made, |s.threads|) + GiftCost(s.made, |s.threads|)
    case Marked(_, left, _) => 2 + left * GiftCost(s.made, |s.threads|) + GiftCost(s.made, |s.threads|)
    case Handed(_, left, _) => 9 + left * GiftCost(s.made, |s.threads|)
    case Taking(_) => 5
    case Settling(_) => 4
    case Doubting(_) => 0
  }

  /** The steps until a node is no longer queued. */
  function NodeCost(s: State, place: NodePlace): nat {
    match place
    case Nowhere => 0
    case OnRun(_) => 3
    case OnStolen(_) => 6
    case AsCurrent(t) => if t < |s.threads| && s.threads[t].pc.Doubting? then 1 else 2
    case InHand(_) => 0
  }

  /** The steps until a tuple is consumed; what a thread has in hand counts with the thread. */
  function ItemCost(s: State, place: ItemPlace, dest: NodeId): nat {
    match place
    case InBuffer(t) => if dest < |s.owner| && s.owner[dest] == t then 9 else 12
    case WithThread(_) => 0
    case AtNode(_) => 1
    case Consumed => 0
  }

  function Sum(costs: seq<nat>): nat {
    if costs == [] then 0 else Sum(costs[..|costs| - 1]) + costs[|costs| - 1]
  }

  ghost function ThreadCosts(s: State): seq<nat> {
    seq(|s.threads|, t requires 0 <= t < |s.threads| => PcCost(s, t, s.threads[t].pc))
  }

  ghost function NodeCosts(s: State, p: Places): seq<nat> {
    seq(|p.node|, n requires 0 <= n < |p.node| => NodeCost(s, p.node[n]))
  }

  ghost function ItemCosts(s: State, p: Places): seq<nat>
    requires |p.dest| == |p.item|
  {
    seq(|p.item|, i requires 0 <= i < |p.item| => ItemCost(s, p.item[i], p.dest[i]))
  }

  /** A bound on the steps that can still be taken. */
  ghost function Left(s: State, p: Places): nat
    requires |p.dest| == |p.item|
  {
    Sum(ThreadCosts(s)) + Sum(NodeCosts(s, p)) + Sum(ItemCosts(s, p))
  }

  // ---------------------------------------------------------------- sums

  lemma {:induction false} SumUpdate(costs: seq<nat>, i: nat, c: nat)
    requires i < |costs|
    ensures Sum(costs[i := c]) == Sum(costs) - costs[i] + c
  {
    var l := |costs| - 1;
    if i == l {
      assert costs[i := c][..l] == costs[..l];
    } else {
      assert costs[i := c][..l] == costs[..l][i := c];
      SumUpdate(costs[..l], i, c);
    }
  }

  lemma {:induction false} SumRise(a: seq<nat>, b: seq<nat>, d: nat)
    requires |a| == |b| && forall i :: 0 <= i < |a| ==> b[i] <= a[i] + d
    ensures Sum(b) <= Sum(a) + d * |a|
  {
    if a != [] {
      var l := |a| - 1;
      SumRise(a[..l], b[..l], d);
      assert d * |a| == d * l + d;
    }
  }

  // ---------------------------------------------------------------- what one step changes

  /** Only the costs of the thread `t`, the node `n` and the tuple `i` have changed. */
  ghost predicate Costs(s: State, p: Places, s': State, p': Places, t: Tid, n: NodeId, i: Item)
    requires |p.dest| == |p.item| && |p'.dest| == |p'.item|
  {
    && |s'.threads| == |s.threads| && |p'.node| == |p.node| && |p'.item| == |p.item| && t < |s.threads|
    && (forall u :: 0 <= u < |s.threads| && u != t ==> PcCost(s', u, s'.threads[u].pc) == PcCost(s, u, s.threads[u].pc))
    && (forall m :: 0 <= m < |p.node| && m != n ==> NodeCost(s', p'.node[m]) == NodeCost(s, p.node[m]))
    && (forall j :: 0 <= j < |p.item| && j != i ==>
          ItemCost(s', p'.item[j], p'.dest[j]) == ItemCost(s, p.item[j], p.dest[j]))
  }

  ghost function CostAt(s: State, p: Places, t: Tid, n: NodeId, i: Item): nat
    requires |p.dest| == |p.item|
  {
    (if t < |s.threads| then PcCost(s, t, s.threads[t].pc) else 0)
    + (if n < |p.node| then NodeCost(s, p.node[n]) else 0)
    + (if i < |p.item| then ItemCost(s, p.item[i], p.dest[i]) else 0)
  }

  lemma LeftChanges(s: State, p: Places, s': State, p': Places, t: Tid, n: NodeId, i: Item)
    requires |p.dest| == |p.item| && |p'.dest| == |p'.item| && Costs(s, p, s', p', t, n, i)
    ensures Left(s', p') + CostAt(s, p, t, n, i) == Left(s, p) + CostAt(s', p', t, n, i)
  {
    hide PcCost, NodeCost, ItemCost;
    var tc, nc, ic := ThreadCosts(s), NodeCosts(s, p), ItemCosts(s, p);
    SumUpdate(tc, t, ThreadCosts(s')[t]);
    assert ThreadCosts(s') == tc[t := ThreadCosts(s')[t]];
    if n < |nc| {
      SumUpdate(nc, n, NodeCosts(s', p')[n]);
      assert NodeCosts(s', p') == nc[n := NodeCosts(s', p')[n]];
    } else {
      assert NodeCosts(s', p') == nc;
    }
    if i < |ic| {
      SumUpdate(ic, i, ItemCosts(s', p')[i]);
      assert ItemCosts(s', p') == ic[i := ItemCosts(s', p')[i]];
    } else {
      assert ItemCosts(s', p') == ic;
    }
  }

  /** The step uses up some of what is left. */
  ghost predicate Spends(s: State, p: Places, a: Action)
    requires Enabled(s, a)
  {
    var p' := Track(s, p, a);
    |p.dest| == |p.item| && |p'.dest| == |p'.item| && Left(Apply(s, a), p') < Left(s, p)
  }

  /** A tuple is taken from the buffer. */
  lemma RetrieveCosts(s: State, p: Places, t: Tid)
    requires Inv(s, p) && Enabled(s, Action(t, Retrieve))
    ensures Spends(s, p, Action(t, Retrieve))
  {
    hide Sum, ThreadCosts, NodeCosts, ItemCosts;
    assert ThreadOk(s, p, t);
    var th := s.threads[t];
    assert th.buffer[0] in th.buffer;
    LeftChanges(s, p, Apply(s, Action(t, Retrieve)), Track(s, p, Action(t, Retrieve)), t, |s.owner|, th.buffer[0].item);
  }

  /** A node is taken from the stolen ones. */
  lemma TakeStolenCosts(s: State, p: Places, t: Tid)
    requires Inv(s, p) && Enabled(s, Action(t, TakeStolen))
    ensures Spends(s, p, Action(t, TakeStolen))
  {
    hide Sum, ThreadCosts, NodeCosts, ItemCosts;
    assert ThreadOk(s, p, t);
    var th := s.threads[t];
    assert th.stolen[0] in th.stolen;
    LeftChanges(s, p, Apply(s, Action(t, TakeStolen)), Track(s, p, Action(t, TakeStolen)), t, th.stolen[0], s.made);
  }

  /** A node is taken from the run queue. */
  lemma PopCosts(s: State, p: Places, t: Tid)
    requires Inv(s, p) && Enabled(s, Action(t, PopNode))
    ensures Spends(s, p, Action(t, PopNode))
  {
    hide Sum, ThreadCosts, NodeCosts, ItemCosts;
    assert ThreadOk(s, p, t);
    var th := s.threads[t];
    assert th.run[0] in th.run;
    LeftChanges(s, p, Apply(s, Action(t, PopNode)), Track(s, p, Action(t, PopNode)), t, th.run[0], s.made);
  }

  /** A tuple is consumed. */
  lemma ConsumeCosts(s: State, p: Places, t: Tid, k: nat)
    requires Inv(s, p) && Enabled(s, Action(t, Consume(k)))
    ensures Spends(s, p, Action(t, Consume(k)))
  {
    hide Sum, ThreadCosts, NodeCosts, ItemCosts;
    assert ThreadOk(s, p, t);
    var th := s.threads[t];
    var n := th.current.value;
    assert NodeOk(s, p, n) && s.pending[n][k] in s.pending[n];
    var a := Action(t, Consume(k));
    LeftChanges(s, p, Apply(s, a), Track(s, p, a), t, |s.owner|, s.pending[n][k]);
  }

  /** The current node is found without tuples. */
  lemma DoubtCosts(s: State, p: Places, t: Tid)
    requires Inv(s, p) && Enabled(s, Action(t, Doubt))
    ensures Spends(s, p, Action(t, Doubt))
  {
    hide Sum, ThreadCosts, NodeCosts, ItemCosts;
    assert ThreadOk(s, p, t);
    var th := s.threads[t];
    CurrentOnce(s, p, t);
    LeftChanges(s, p, Apply(s, Action(t, Doubt)), Track(s, p, Action(t, Doubt)), t, th.current.value, s.made);
  }

  /** The owner of a node is read. */
  lemma RouteCosts(s: State, p: Places, t: Tid)
    requires Inv(s, p) && Enabled(s, Action(t, Next)) && s.threads[t].pc.Routing?
    ensures Spends(s, p, Action(t, Next))
  {
    hide Sum, ThreadCosts, NodeCosts, ItemCosts;
    assert ThreadOk(s, p, t);
    var th := s.threads[t];
    LeftChanges(s, p, Continue(s, t), TrackNext(s, p, t), t, |s.owner|, s.made);
  }

  /** A tuple goes to a buffer. */
  lemma SendCosts(s: State, p: Places, t: Tid)
    requires Inv(s, p) && Enabled(s, Action(t, Next)) && s.threads[t].pc.Sending?
    ensures Spends(s, p, Action(t, Next))
  {
    hide Sum, ThreadCosts, NodeCosts, ItemCosts;
    assert ThreadOk(s, p, t);
    var th := s.threads[t];
    assert ItemOk(s, p, th.pc.w.item);
    LeftChanges(s, p, Continue(s, t), TrackNext(s, p, t), t, |s.owner|, th.pc.w.item);
  }

  /** A tuple goes to its node. */
  lemma AddCosts(s: State, p: Places, t: Tid)
    requires Inv(s, p) && Enabled(s, Action(t, Next)) && s.threads[t].pc.Adding?
    ensures Spends(s, p, Action(t, Next))
  {
    hide Sum, ThreadCosts, NodeCosts, ItemCosts;
    assert ThreadOk(s, p, t);
    var th := s.threads[t];
    assert ItemOk(s, p, th.pc.w.item);
    LeftChanges(s, p, Continue(s, t), TrackNext(s, p, t), t, |s.owner|, th.pc.w.item);
  }

  /** The flags of a node are looked at. */
  lemma CheckCosts(s: State, p: Places, t: Tid)
    requires Inv(s, p) && Enabled(s, Action(t, Next)) && s.threads[t].pc.Checking?
    ensures Spends(s, p, Action(t, Next))
  {
    hide Sum, ThreadCosts, NodeCosts, ItemCosts;
    assert ThreadOk(s, p, t);
    var th := s.threads[t];
    assert NodeOk(s, p, th.pc.n);
    LeftChanges(s, p, Continue(s, t), TrackNext(s, p, t), t, th.pc.n, s.made);
  }

  /** A node is flagged. */
  lemma FlagCosts(s: State, p: Places, t: Tid)
    requires Inv(s, p) && Enabled(s, Action(t, Next)) && s.threads[t].pc.Flagging?
    ensures Spends(s, p, Action(t, Next))
  {
    hide Sum, ThreadCosts, NodeCosts, ItemCosts;
    assert ThreadOk(s, p, t);
    var th := s.threads[t];
    LeftChanges(s, p, Continue(s, t), TrackNext(s, p, t), t, |s.owner|, s.made);
  }

  /** A node is picked to be given away. */
  lemma GiveCosts(s: State, p: Places, t: Tid)
    requires Inv(s, p) && Enabled(s, Action(t, Next)) && s.threads[t].pc.Giving?
    ensures Spends(s, p, Action(t, Next))
  {
    hide Sum, ThreadCosts, NodeCosts, ItemCosts, GiftCost;
    assert ThreadOk(s, p, t);
    var th := s.threads[t];
    if th.pc.left > 0 && th.run != [] {
      assert th.run[0] in th.run;
      OneGift(th.pc.left, GiftCost(s.made, |s.threads|));
      LeftChanges(s, p, Continue(s, t), TrackNext(s, p, t), t, th.run[0], s.made);
    } else {
      LeftChanges(s, p, Continue(s, t), TrackNext(s, p, t), t, |s.owner|, s.made);
    }
  }

  lemma OneGift(left: nat, gift: nat)
    requires left > 0
    ensures left * gift == (left - 1) * gift + gift
  {
  }

  /** It is marked as moving around. */
  lemma PickedCosts(s: State, p: Places, t: Tid)
    requires Inv(s, p) && Enabled(s, Action(t, Next)) && s.threads[t].pc.Picked?
    ensures Spends(s, p, Action(t, Next))
  {
    hide Sum, ThreadCosts, NodeCosts, ItemCosts;
    assert ThreadOk(s, p, t);
    var th := s.threads[t];
    LeftChanges(s, p, Continue(s, t), TrackNext(s, p, t), t, |s.owner|, s.made);
  }

  /** Its owner changes: every tuple on its way to it may have to go round once more. */
  lemma MarkedCosts(s: State, p: Places, t: Tid)
    requires Inv(s, p) && Enabled(s, Action(t, Next)) && s.threads[t].pc.Marked?
    ensures Spends(s, p, Action(t, Next))
  {
    hide Sum;
    assert ThreadOk(s, p, t);
    var s', p' := Continue(s, t), TrackNext(s, p, t);
    var tc, pc' := ThreadCosts(s), s'.threads[t].pc;
    SumUpdate(tc, t, PcCost(s', t, pc'));
    SumRise(tc[t := PcCost(s', t, pc')], ThreadCosts(s'), 3);
    SumRise(ItemCosts(s, p), ItemCosts(s', p'), 3);
    CurrentOnce(s, p, t);
    assert NodeCosts(s', p') == NodeCosts(s, p);
  }

  /** It goes to the stolen nodes of its new owner. */
  lemma HandedCosts(s: State, p: Places, t: Tid)
    requires Inv(s, p) && Enabled(s, Action(t, Next)) && s.threads[t].pc.Handed?
    ensures Spends(s, p, Action(t, Next))
  {
    hide Sum, ThreadCosts, NodeCosts, ItemCosts;
    assert ThreadOk(s, p, t);
    var th := s.threads[t];
    LeftChanges(s, p, Continue(s, t), TrackNext(s, p, t), t, th.pc.n, s.made);
  }

  /** It is no longer moving around. */
  lemma TakenCosts(s: State, p: Places, t: Tid)
    requires Inv(s, p) && Enabled(s, Action(t, Next)) && s.threads[t].pc.Taking?
    ensures Spends(s, p, Action(t, Next))
  {
    hide Sum, ThreadCosts, NodeCosts, ItemCosts;
    assert ThreadOk(s, p, t);
    var th := s.threads[t];
    LeftChanges(s, p, Continue(s, t), TrackNext(s, p, t), t, |s.owner|, s.made);
  }

  /** It is queued at its new owner. */
  lemma SettledCosts(s: State, p: Places, t: Tid)
    requires Inv(s, p) && Enabled(s, Action(t, Next)) && s.threads[t].pc.Settling?
    ensures Spends(s, p, Action(t, Next))
  {
    hide Sum, ThreadCosts, NodeCosts, ItemCosts;
    assert ThreadOk(s, p, t);
    var th := s.threads[t];
    LeftChanges(s, p, Continue(s, t), TrackNext(s, p, t), t, th.pc.n, s.made);
  }

  /** A node without tuples is given up. */
  lemma DoubtedCosts(s: State, p: Places, t: Tid)
    requires Inv(s, p) && Enabled(s, Action(t, Next)) && s.threads[t].pc.Doubting?
    ensures Spends(s, p, Action(t, Next))
  {
    hide Sum, ThreadCosts, NodeCosts, ItemCosts;
    assert ThreadOk(s, p, t);
    var th := s.threads[t];
    CurrentOnce(s, p, t);
    LeftChanges(s, p, Continue(s, t), TrackNext(s, p, t), t, th.pc.n, s.made);
  }

  /** No other node is current where `t` has its own. */
  lemma CurrentOnce(s: State, p: Places, t: Tid)
    requires Inv(s, p) && t < |s.threads|
    ensures forall m :: 0 <= m < |p.node| && p.node[m] == AsCurrent(t) ==> s.threads[t].current == Some(m)
  {
    forall m | 0 <= m < |p.node| && p.node[m] == AsCurrent(t) ensures s.threads[t].current == Some(m) {
      assert NodeOk(s, p, m);
    }
  }

  // ---------------------------------------------------------------- whole runs

  /** A move that starts no new work and gives nothing away. */
  predicate Settles(m: Move) {
    m.Next? || m.Retrieve? || m.TakeStolen? || m.PopNode? || m.Consume? || m.Doubt?
  }

  lemma StepSpends(s: State, p: Places, a: Action)
    requires Inv(s, p) && Enabled(s, a) && Settles(a.move)
    ensures Spends(s, p, a)
  {
    match a.move
    case Next => NextSpends(s, p, a.t);
    case Retrieve => RetrieveCosts(s, p, a.t);
    case TakeStolen => TakeStolenCosts(s, p, a.t);
    case PopNode => PopCosts(s, p, a.t);
    case Consume(k) => ConsumeCosts(s, p, a.t, k);
    case Doubt => DoubtCosts(s, p, a.t);
  }

  lemma NextSpends(s: State, p: Places, t: Tid)
    requires Inv(s, p) && Enabled(s, Action(t, Next))
    ensures Spends(s, p, Action(t, Next))
  {
    match s.threads[t].pc
    case Routing(_, _) => RouteCosts(s, p, t);
    case Sending(_, _) => SendCosts(s, p, t);
    case Adding(_, _) => AddCosts(s, p, t);
    case Checking(_, _) => CheckCosts(s, p, t);
    case Flagging(_) => FlagCosts(s, p, t);
    case Giving(_, _) => GiveCosts(s, p, t);
    case Picked(_, _, _) => PickedCosts(s, p, t);
    case Marked(_, _, _) => MarkedCosts(s, p, t);
    case Handed(_, _, _) => HandedCosts(s, p, t);
    case Taking(_) => TakenCosts(s, p, t);
    case Settling(_) => SettledCosts(s, p, t);
    case Doubting(_) => DoubtedCosts(s, p, t);
  }

  /** A steal request that is only made changes nothing that counts. */
  lemma RequestCosts(s: State, p: Places, t: Tid, target: Tid)
    requires Inv(s, p) && Enabled(s, Action(t, Request(target)))
    ensures |p.dest| == |p.item| && Left(Apply(s, Action(t, Request(target))), p) == Left(s, p)
  {
    var s' := Apply(s, Action(t, Request(target)));
    assert ThreadCosts(s') == ThreadCosts(s);
    assert NodeCosts(s', p) == NodeCosts(s, p) && ItemCosts(s', p) == ItemCosts(s, p);
  }

  /** No tuple is derived, no node created, and no steal request answered. */
  ghost predicate Settling(actions: seq<Action>) {
    forall k :: 0 <= k < |actions| ==> Settles(actions[k].move) || actions[k].move.Request?
  }

  /** The steps other than steal requests. */
  function Steps(actions: seq<Action>): nat {
    if actions == [] then 0 else (if actions[0].move.Request? then 0 else 1) + Steps(actions[1..])
  }

  lemma {:induction false} RunSpends(s: State, p: Places, actions: seq<Action>) returns (p': Places)
    requires Inv(s, p) && CanRun(s, actions) && Settling(actions)
    ensures Inv(Run(s, actions), p') && |p.dest| == |p.item| && |p'.dest| == |p'.item|
    ensures Steps(actions) + Left(Run(s, actions), p') <= Left(s, p)
    decreases |actions|
  {
    p' := p;
    if actions != [] {
      var a := actions[0];
      hide Left;
      StepInv(s, p, a);
      if a.move.Request? {
        RequestCosts(s, p, a.t, a.move.target);
      } else {
        StepSpends(s, p, a);
      }
      assert forall k :: 0 <= k < |actions[1..]| ==> actions[1..][k] == actions[k + 1];
      p' := RunSpends(Apply(s, a), Track(s, p, a), actions[1..]);
    }
  }

  /** The scheduler comes to rest: in every state that the threads can reach there is a bound on the steps, of
      all threads together, of all runs in which no tuple is derived, no node created and no steal request
      answered. */
  lemma ComesToRest(threads: nat, owners: seq<Tid>, before: seq<Action>) returns (bound: nat)
    requires (forall m :: 0 <= m < |owners| ==> owners[m] < threads) && CanRun(Init(threads, owners), before)
    ensures forall actions {:trigger Steps(actions)} ::
              CanRun(Run(Init(threads, owners), before), actions) && Settling(actions) ==> Steps(actions) <= bound
  {
    InitInv(threads, owners);
    var p := RunInv(Init(threads, owners), InitPlaces(owners), before);
    var s := Run(Init(threads, owners), before);
    bound := Left(s, p);
    forall actions | CanRun(s, actions) && Settling(actions) ensures Steps(actions) <= bound {
      var p' := RunSpends(s, p, actions);
    }
  }

  /** And it comes to rest with nothing left to do: as long as a thread is busy one of them can take such a
      step, so that there is a run to a state in which every tuple has been consumed. */
  lemma {:induction false} Drains(s: State, p: Places) returns (actions: seq<Action>, p': Places)
    requires Inv(s, p)
    ensures CanRun(s, actions) && Settling(actions) && Inv(Run(s, actions), p') && Quiet(Run(s, actions))
    ensures |p.dest| == |p.item| && |actions| <= Left(s, p)
    decreases Left(s, p)
  {
    if t: nat :| t < |s.threads| && Busy(s.threads[t]) {
      var m := NeverStuck(s, p, t);
      var a := Action(t, m);
      hide Left, Busy, Quiet;
      StepInv(s, p, a);
      StepSpends(s, p, a);
      var rest;
      rest, p' := Drains(Apply(s, a), Track(s, p, a));
      actions := [a] + rest;
      assert actions[1..] == rest;
    } else {
      actions, p' := [], p;
    }
  }

  lemma {:induction false} RunAppend(s: State, a: seq<Action>, b: seq<Action>)
    requires CanRun(s, a) && CanRun(Run(s, a), b)
    ensures CanRun(s, a + b) && Run(s, a + b) == Run(Run(s, a), b)
    decreases |a|
  {
    if a == [] {
      assert a + b == b;
    } else {
      assert (a + b)[0] == a[0] && (a + b)[1..] == a[1..] + b;
      RunAppend(Apply(s, a[0]), a[1..], b);
    }
  }

  /** Whatever has happened so far, the threads can still consume every tuple that has been made. */
  lemma AllCanBeConsumed(threads: nat, owners: seq<Tid>, before: seq<Action>) returns (actions: seq<Action>)
    requires (forall m :: 0 <= m < |owners| ==> owners[m] < threads) && CanRun(Init(threads, owners), before)
    ensures CanRun(Init(threads, owners), before + actions) && Settling(actions)
    ensures forall i :: 0 <= i < Run(Init(threads, owners), before + actions).made ==>
              i in Eaten(Init(threads, owners), before + actions)
  {
    InitInv(threads, owners);
    var p := RunInv(Init(threads, owners), InitPlaces(owners), before);
    var p';
    actions, p' := Drains(Run(Init(threads, owners), before), p);
    RunAppend(Init(threads, owners), before, actions);
    QuietMeansDone(threads, owners, before + actions);
  }
}
