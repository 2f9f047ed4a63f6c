/**
  Node stealing in the static scheduler (`answer_steal_requests` of predicates/thread/static.cpp): how many
  nodes, and which, a thread gives away for one request.
*/
module SchedulerSteal {
  import opened Common
  import opened Scheduler

  /** Of `n` queued nodes `k` are given away: all of up to four, four of up to 24, and one in five of more. */
  ghost predicate FairShare(n: nat, k: nat) {
    && (n <= 4 ==> k == n)
    && (4 <= n < 25 ==> k == 4)
    && (n >= 25 ==> 5 * k <= n < 5 * k + 5)
  }

  /** In any interleaving: answering the oldest request begins with that many nodes to give. */
  lemma AnswerBegins(s: State, t: Tid)
    requires Enabled(s, Action(t, Answer))
    ensures var th, th' := s.threads[t], Apply(s, Action(t, Answer)).threads[t];
            th'.pc.Giving? && th'.pc.to == th.requests[0] && FairShare(|th.run|, th'.pc.left)
            && th' == th.(requests := th.requests[1..], pc := th'.pc)
  {
  }

  /** `m` turns of one thread. */
  ghost function Turns(t: Tid, m: nat): (actions: seq<Action>)
    ensures |actions| == m
  {
    seq(m, _ => Action(t, Next))
  }

  lemma MoreTurns(t: Tid, m: nat)
    ensures Turns(t, m + 1)[0] == Action(t, Next) && Turns(t, m + 1)[1..] == Turns(t, m)
  {
  }

  /** `nodes` have gone from the front of one thread's run queue to the end of another's stolen nodes, which owns
      them from now on; nothing else is different, but for what the giver is doing. */
  ghost predicate Gave(s: State, s': State, t: Tid, to: Tid, nodes: seq<NodeId>) {
    && t < |s.threads| && to < |s.threads| && t != to && nodes <= s.threads[t].run
    && |s'.threads| == |s.threads| && |s'.owner| == |s.owner| && |s'.moving| == |s.moving|
    && s'.threads[t] == s.threads[t].(run := s.threads[t].run[|nodes|..], pc := s'.threads[t].pc)
    && s'.threads[to] == s.threads[to].(stolen := s.threads[to].stolen + nodes)
    && (forall u :: 0 <= u < |s.threads| && u != t && u != to ==> s'.threads[u] == s.threads[u])
    && (forall n :: 0 <= n < |s.owner| ==> s'.owner[n] == if n in nodes then to else s.owner[n])
    && (forall n :: 0 <= n < |s.moving| ==> s'.moving[n] == (n in nodes || s.moving[n]))
    && s'.flag == s.flag && s'.pending == s.pending && s'.made == s.made
  }

  lemma GaveNothing(s: State, t: Tid, to: Tid)
    requires t < |s.threads| && to < |s.threads| && t != to
    ensures Gave(s, s, t, to, [])
  {
  }

  lemma GaveTwice(s: State, s1: State, s2: State, t: Tid, to: Tid, a: seq<NodeId>, b: seq<NodeId>)
    requires Gave(s, s1, t, to, a) && Gave(s1, s2, t, to, b)
    ensures Gave(s, s2, t, to, a + b)
  {
    assert s.threads[t].run[|a|..][|b|..] == s.threads[t].run[|a + b|..];
    assert s.threads[to].stolen + a + b == s.threads[to].stolen + (a + b);
    assert s.threads[t].run == a + s.threads[t].run[|a|..];
    assert s1.threads[t].run == b + s1.threads[t].run[|b|..];
    assert a + b <= s.threads[t].run;
  }

  /** A thread that is giving nodes away can take its next turn. */
  ghost predicate Stealing(pc: Pc) {
    pc.Giving? || pc.Picked? || pc.Marked? || pc.Handed?
  }

  lemma CanGoOn(s: State, p: Places, t: Tid)
    requires Inv(s, p) && t < |s.threads| && Stealing(s.threads[t].pc)
    ensures Enabled(s, Action(t, Next)) && Inv(Continue(s, t), TrackNext(s, p, t))
    ensures s.threads[t].pc.to < |s.threads| && s.threads[t].pc.to != t
    ensures forall n :: n in s.threads[t].run ==> n < |s.owner|
    ensures !s.threads[t].pc.Giving? ==> s.threads[t].pc.n < |s.owner|
    ensures |s.moving| == |s.owner|
  {
    assert ThreadOk(s, p, t);
    StepInv(s, p, Action(t, Next));
  }

  /** One turn and then `m` more. */
  lemma TurnFirst(s: State, t: Tid, m: nat)
    requires Enabled(s, Action(t, Next)) && CanRun(Continue(s, t), Turns(t, m))
    ensures CanRun(s, Turns(t, m + 1)) && Run(s, Turns(t, m + 1)) == Run(Continue(s, t), Turns(t, m))
  {
    hide Enabled, Continue;
    MoreTurns(t, m);
  }

  /** The node at the front of the run queue after the first three turns of giving it. */
  lemma GiveSteps(s: State, t: Tid)
    requires Enabled(s, Action(t, Next)) && s.threads[t].pc.Giving? && s.threads[t].pc.left > 0 && s.threads[t].run != []
    requires s.threads[t].pc.to < |s.threads| && s.threads[t].pc.to != t
    requires s.threads[t].run[0] < |s.owner| == |s.moving|
    ensures var pc, th, n := s.threads[t].pc, s.threads[t], s.threads[t].run[0];
            var s1 := Continue(s, t);
            && s1 == SetThread(s, t, th.(run := th.run[1..], pc := Picked(pc.to, pc.left - 1, n)))
            && Enabled(s1, Action(t, Next)) && var s2 := Continue(s1, t);
            && Enabled(s2, Action(t, Next)) && var s3 := Continue(s2, t);
            && Enabled(s3, Action(t, Next)) && var s4 := Continue(s3, t);
            Gave(s, s4, t, pc.to, [n]) && s4.threads[t].pc == Giving(pc.to, pc.left - 1)
  {
  }

  /** Four turns give one node. */
  lemma GiveOne(s: State, p: Places, t: Tid, m: nat) returns (s': State, p': Places)
    requires Inv(s, p) && t < |s.threads| && s.threads[t].pc.Giving? && s.threads[t].pc.left > 0 && s.threads[t].run != []
    ensures Inv(s', p')
    ensures CanRun(s', Turns(t, m)) ==> CanRun(s, Turns(t, m + 4)) && Run(s, Turns(t, m + 4)) == Run(s', Turns(t, m))
    ensures var pc := s.threads[t].pc;
            Gave(s, s', t, pc.to, [s.threads[t].run[0]]) && s'.threads[t].pc == Giving(pc.to, pc.left - 1)
  {
    hide Inv, Gave, CanRun, Run;
    CanGoOn(s, p, t);
    assert s.threads[t].run[0] in s.threads[t].run;
    GiveSteps(s, t);
    var s1, p1 := Continue(s, t), TrackNext(s, p, t);
    CanGoOn(s1, p1, t);
    var s2, p2 := Continue(s1, t), TrackNext(s1, p1, t);
    CanGoOn(s2, p2, t);
    var s3, p3 := Continue(s2, t), TrackNext(s2, p2, t);
    CanGoOn(s3, p3, t);
    s', p' := Continue(s3, t), TrackNext(s3, p3, t);
    if CanRun(s', Turns(t, m)) {
      TurnFirst(s3, t, m);
      TurnFirst(s2, t, m + 1);
      TurnFirst(s1, t, m + 2);
      TurnFirst(s, t, m + 3);
    }
  }

  /** A thread that has `left` nodes to give and takes only its own turns gives the first `left` of its run queue,
      in that order, and is free. */
  lemma {:induction false} GiveAll(s: State, p: Places, t: Tid)
    requires Inv(s, p) && t < |s.threads| && s.threads[t].pc.Giving? && s.threads[t].pc.left <= |s.threads[t].run|
    ensures var th, m := s.threads[t], 4 * s.threads[t].pc.left + 1;
            && CanRun(s, Turns(t, m)) && var s' := Run(s, Turns(t, m));
            Gave(s, s', t, th.pc.to, th.run[..th.pc.left]) && s'.threads[t].pc.Free?
    decreases s.threads[t].pc.left
  {
    hide Inv, Gave, Continue;
    var th := s.threads[t];
    var left, to := th.pc.left, th.pc.to;
    CanGoOn(s, p, t);
    if left == 0 {
      GiveEnds(s, t);
      TurnFirst(s, t, 0);
      assert th.run[..0] == [];
    } else {
      var s1, p1 := GiveOne(s, p, t, 4 * left - 3);
      GaveIs(s, s1, t, to, [th.run[0]]);
      assert [th.run[0]] + th.run[1..][..left - 1] == th.run[..left];
      GiveAll(s1, p1, t);
      GaveTwice(s, s1, Run(s1, Turns(t, 4 * left - 3)), t, to, [th.run[0]], th.run[1..][..left - 1]);
    }
  }

  lemma GaveIs(s: State, s': State, t: Tid, to: Tid, nodes: seq<NodeId>)
    requires Gave(s, s', t, to, nodes)
    ensures t < |s.threads| && t < |s'.threads| && |nodes| <= |s.threads[t].run|
    ensures s'.threads[t].run == s.threads[t].run[|nodes|..]
  {
  }

  lemma GiveEnds(s: State, t: Tid)
    requires Enabled(s, Action(t, Next)) && s.threads[t].pc.Giving? && s.threads[t].pc.left == 0
    requires s.threads[t].pc.to < |s.threads| && s.threads[t].pc.to != t
    ensures var s' := Continue(s, t);
            t < |s'.threads| && s'.threads[t].pc.Free? && Gave(s, s', t, s.threads[t].pc.to, [])
            && CanRun(s', Turns(t, 0)) && Run(s', Turns(t, 0)) == s'
  {
  }

  /** A thread that takes its own turns is free after a certain number of them only. */
  lemma {:induction false} FreeOnce(s: State, t: Tid, m: nat, k: nat)
    requires t < |s.threads| && CanRun(s, Turns(t, m)) && CanRun(s, Turns(t, k))
    requires IsFree(Run(s, Turns(t, m)), t) && IsFree(Run(s, Turns(t, k)), t)
    ensures m == k
    decreases m
  {
    hide Enabled, Apply;
    if m > 0 && k > 0 {
      MoreTurns(t, m - 1);
      MoreTurns(t, k - 1);
      SameThreads(s, t);
      FreeOnce(Apply(s, Action(t, Next)), t, m - 1, k - 1);
    } else if m > 0 {
      MoreTurns(t, m - 1);
      FreeStops(s, t);
    } else if k > 0 {
      MoreTurns(t, k - 1);
      FreeStops(s, t);
    }
  }

  ghost predicate IsFree(s: State, t: Tid) {
    t < |s.threads| && s.threads[t].pc.Free?
  }

  lemma FreeStops(s: State, t: Tid)
    requires IsFree(s, t)
    ensures !Enabled(s, Action(t, Next))
  {
  }

  lemma SameThreads(s: State, t: Tid)
    requires Enabled(s, Action(t, Next))
    ensures t < |Apply(s, Action(t, Next)).threads|
  {
  }

  /** A thread that answers a request and then takes only its own turns until it is free: exactly the first `k`
      nodes of its run queue are, in that order, at the end of the requester's stolen nodes and owned by it. */
  lemma Answered(s: State, p: Places, t: Tid, m: nat) returns (k: nat)
    requires Inv(s, p) && Enabled(s, Action(t, Answer))
    requires CanRun(s, [Action(t, Answer)] + Turns(t, m)) && IsFree(Run(s, [Action(t, Answer)] + Turns(t, m)), t)
    ensures var n := |s.threads[t].run|;
            (n <= 4 ==> k == n) && (4 <= n < 25 ==> k == 4) && (n >= 25 ==> 5 * k <= n < 5 * k + 5) && k <= n
    ensures m == 4 * k + 1
    ensures var th, to := s.threads[t], s.threads[t].requests[0];
            var s' := Run(s, [Action(t, Answer)] + Turns(t, m));
            && to < |s.threads| && to != t && |s'.threads| == |s.threads| && |s'.owner| == |s.owner|
            && s'.threads[t] == th.(run := th.run[k..], requests := th.requests[1..])
            && s'.threads[to] == s.threads[to].(stolen := s.threads[to].stolen + th.run[..k])
            && (forall u :: 0 <= u < |s.threads| && u != t && u != to ==> s'.threads[u] == s.threads[u])
            && (forall n :: 0 <= n < |s.owner| ==> s'.owner[n] == if n in th.run[..k] then to else s.owner[n])
            && s'.flag == s.flag && s'.pending == s.pending && s'.made == s.made
  {
    hide Inv, Continue;
    var actions := [Action(t, Answer)] + Turns(t, m);
    assert actions[0] == Action(t, Answer) && actions[1..] == Turns(t, m);
    AnswerBegins(s, t);
    StepInv(s, p, Action(t, Answer));
    var s1 := Apply(s, Action(t, Answer));
    k := s1.threads[t].pc.left;
    AnswerKeeps(s, p, t);
    GiveAll(s1, p, t);
    FreeOnce(s1, t, m, 4 * k + 1);
  }

  lemma AnswerKeeps(s: State, p: Places, t: Tid)
    requires Inv(s, p) && Enabled(s, Action(t, Answer))
    ensures var s', to := Apply(s, Action(t, Answer)), s.threads[t].requests[0];
            && to < |s.threads| && to != t && s' == SetThread(s, t, s'.threads[t]) && s.threads[t].pc.Free?
            && Track(s, p, Action(t, Answer)) == p
  {
    assert ThreadOk(s, p, t);
    assert s.threads[t].requests[0] in s.threads[t].requests;
  }

  /** And it does get there. */
  lemma AnswerEnds(s: State, p: Places, t: Tid) returns (m: nat)
    requires Inv(s, p) && Enabled(s, Action(t, Answer))
    ensures CanRun(s, [Action(t, Answer)] + Turns(t, m)) && IsFree(Run(s, [Action(t, Answer)] + Turns(t, m)), t)
  {
    hide Inv, Continue;
    AnswerBegins(s, t);
    StepInv(s, p, Action(t, Answer));
    var s1 := Apply(s, Action(t, Answer));
    AnswerKeeps(s, p, t);
    GiveAll(s1, p, t);
    m := 4 * s1.threads[t].pc.left + 1;
    var actions := [Action(t, Answer)] + Turns(t, m);
    assert actions[0] == Action(t, Answer) && actions[1..] == Turns(t, m);
  }

  // ---------------------------------------------------------------- a run in which nodes change hands

  ghost function Upto(n: nat): (s: seq<NodeId>)
    ensures |s| == n && forall i :: 0 <= i < n ==> s[i] == i
  {
    seq(n, i requires 0 <= i => i)
  }

  lemma {:induction false} OwnsAll(n: nat)
    ensures Owned(seq(n, _ => 0), 0) == Upto(n)
  {
    var owners: seq<Tid> := seq(n, _ => 0);
    if n > 0 {
      OwnsAll(n - 1);
      assert owners[..n - 1] == seq(n - 1, _ => 0);
      assert Upto(n) == Upto(n - 1) + [n - 1];
    }
  }

  lemma NewOwners(owner: seq<Tid>)
    requires |owner| == 10 && forall n :: 0 <= n < 10 ==> owner[n] == if n in Upto(10)[..4] then 1 else 0
    ensures owner == [1, 1, 1, 1, 0, 0, 0, 0, 0, 0]
  {
    assert Upto(10)[..4] == [0, 1, 2, 3];
  }

  lemma TenAsked() returns (s: State, p: Places)
    ensures Enabled(Init(2, seq(10, _ => 0)), Action(1, Request(0)))
    ensures s == Apply(Init(2, seq(10, _ => 0)), Action(1, Request(0))) && Inv(s, p)
    ensures |s.threads| == 2 && s.threads[0] == Thread(Upto(10), [], [], [1], None, Free) && s.threads[1].stolen == []
    ensures s.owner == seq(10, _ => 0) && Enabled(s, Action(0, Answer))
  {
    hide Inv;
    var owners: seq<Tid> := seq(10, _ => 0);
    var s0, p0 := Init(2, owners), InitPlaces(owners);
    InitInv(2, owners);
    OwnsAll(10);
    StepInv(s0, p0, Action(1, Request(0)));
    s, p := Apply(s0, Action(1, Request(0))), Track(s0, p0, Action(1, Request(0)));
  }

  /** Ten nodes of thread 0, and thread 1 asks for some: it gets the first four. */
  lemma TenNodes() returns (actions: seq<Action>)
    ensures CanRun(Init(2, seq(10, _ => 0)), actions)
    ensures var s := Run(Init(2, seq(10, _ => 0)), actions);
            && s.owner == [1, 1, 1, 1, 0, 0, 0, 0, 0, 0]
            && |s.threads| == 2 && s.threads[0].run == [4, 5, 6, 7, 8, 9] && s.threads[1].stolen == [0, 1, 2, 3]
  {
    hide Inv, Apply, Enabled, Init;
    var s, p := TenAsked();
    var m := AnswerEnds(s, p, 0);
    var k := Answered(s, p, 0, m);
    var more := [Action(0, Answer)] + Turns(0, m);
    actions := [Action(1, Request(0))] + more;
    assert actions[0] == Action(1, Request(0)) && actions[1..] == more;
    assert k == 4;
    assert [] + Upto(10)[..4] == [0, 1, 2, 3];
    assert Upto(10)[4..] == [4, 5, 6, 7, 8, 9];
    NewOwners(Run(s, more).owner);
  }
}
