/**
  Progress in the lock-free queue of predicates/queue/safe_linear_queue.hpp: in any interleaving the
  producers take a bounded number of turns for each push and splice, however often their
  compare-and-swaps fail, because each failure is another producer's success.
*/
module QueueProgress {
  import opened Common
  import opened LinearQueue

  // ---------------------------------------------------------------- what a producer knows

  /** What the producer has read is out of date, so that its round of the loop will fail. */
  predicate Stale(s: State, pc: Producer) {
    match pc
    case LoadNext(_, last) => last != s.tail
    case Recheck(_, last, seen) => last != s.tail || last !in s.next || seen != s.next[last]
    case LinkCas(_, last) => last !in s.next || s.next[last] != None
    case HelpCas(_, last, _) => last != s.tail
    case _ => false
  }

  /** A segment is linked or the tail moves. */
  ghost predicate Succeeds(s: State, g: Log, a: Action)
    requires Enabled(s, a)
  {
    Record(s, g, a).links != g.links || Record(s, g, a).tailPos != g.tailPos
  }

  /** An action that links nothing and moves no tail leaves every other producer as it was. */
  lemma OthersKeep(s: State, g: Log, a: Action, q: nat)
    requires Inv(s, g) && Enabled(s, a) && !Succeeds(s, g, a)
    requires q < |s.producers| && ((a.Begin? || a.Step?) ==> a.p != q)
    ensures Apply(s, a).producers[q] == s.producers[q]
    ensures Stale(Apply(s, a), s.producers[q]) <==> Stale(s, s.producers[q])
  {
    assert ProducerInv(s, g.chain, g.tailPos, s.producers[q]);
    if a.Begin? {
      PrivateChainSpelled(a.nodes);
      KnownNode(s, g, s.producers[q]);
    } else if a.Step? {
      TailStays(s, g, a.p);
    }
  }

  /** The node that a producer has read is in memory. */
  lemma KnownNode(s: State, g: Log, pc: Producer)
    requires Inv(s, g) && ProducerInv(s, g.chain, g.tailPos, pc)
    ensures pc.LoadNext? || pc.Recheck? || pc.LinkCas? || pc.HelpCas? ==> pc.last in s.next
  {
  }

  lemma TailStays(s: State, g: Log, p: nat)
    requires Inv(s, g) && Enabled(s, Step(p)) && !Succeeds(s, g, Step(p))
    ensures Apply(s, Step(p)).next == s.next && Apply(s, Step(p)).tail == s.tail
  {
    assert ProducerInv(s, g.chain, g.tailPos, s.producers[p]);
  }

  /** A producer that has up-to-date knowledge keeps it through any action that succeeds in nothing. */
  lemma FreshStays(s: State, g: Log, a: Action, q: nat)
    requires Inv(s, g) && Enabled(s, a) && !Succeeds(s, g, a)
    requires q < |s.producers| && !Stale(s, s.producers[q])
    ensures q < |Apply(s, a).producers| && !Stale(Apply(s, a), Apply(s, a).producers[q])
  {
    if (a.Begin? || a.Step?) && a.p == q {
      assert ProducerInv(s, g.chain, g.tailPos, s.producers[q]);
      KnownNode(s, g, s.producers[q]);
    } else {
      OthersKeep(s, g, a, q);
    }
  }

  /** A compare-and-swap, or the check before it, fails only if since this producer was up to date a
      segment was linked or the tail was moved. */
  lemma {:induction false} FailureExplained(s: State, g: Log, actions: seq<Action>, q: nat)
    requires Inv(s, g) && Runnable(s, actions) && q < |s.producers| && !Stale(s, s.producers[q])
    requires q < |After(s, actions).producers| && Stale(After(s, actions), After(s, actions).producers[q])
    ensures LogAfter(s, g, actions).links != g.links || LogAfter(s, g, actions).tailPos > g.tailPos
    decreases |actions|
  {
    if actions != [] {
      var s', g' := Apply(s, actions[0]), Record(s, g, actions[0]);
      StepForward(s, g, actions[0]);
      StepInv(s, g, actions[0]);
      RunForward(s', g', actions[1..]);
      LinksGrow(s, g, actions[0]);
      RunLinksGrow(s', g', actions[1..]);
      if !Succeeds(s, g, actions[0]) {
        FreshStays(s, g, actions[0], q);
        FailureExplained(s', g', actions[1..], q);
      }
    }
  }

  lemma LinksGrow(s: State, g: Log, a: Action)
    requires Enabled(s, a)
    ensures |g.links| <= |Record(s, g, a).links| && (Record(s, g, a).links != g.links ==> |g.links| < |Record(s, g, a).links|)
  {
  }

  lemma {:induction false} RunLinksGrow(s: State, g: Log, actions: seq<Action>)
    requires Runnable(s, actions)
    ensures |g.links| <= |LogAfter(s, g, actions).links|
    decreases |actions|
  {
    if actions != [] {
      LinksGrow(s, g, actions[0]);
      RunLinksGrow(Apply(s, actions[0]), Record(s, g, actions[0]), actions[1..]);
    }
  }

  // ---------------------------------------------------------------- what is still to be done

  /** The turns up to the end of the producer's round. */
  function TurnsLeft(pc: Producer): nat {
    match pc
    case Idle => 0
    case LoadTail(_) => 4
    case LoadNext(_, _) => 3
    case Recheck(_, _, _) => 2
    case LinkCas(_, _) => 1
    case SwingCas(_, _) => 1
    case HelpCas(_, _, _) => 1
  }

  /** With one more round when this one will fail. */
  function Cost(s: State, pc: Producer): nat {
    TurnsLeft(pc) + if Stale(s, pc) then 4 else 0
  }

  function Costs(s: State, ps: seq<Producer>): nat {
    if ps == [] then 0 else Costs(s, ps[..|ps| - 1]) + Cost(s, ps[|ps| - 1])
  }

  function Retriers(ps: seq<Producer>): nat {
    if ps == [] then 0 else Retriers(ps[..|ps| - 1]) + if Retrying(ps[|ps| - 1]) then 1 else 0
  }

  /** How often something can still be linked or the tail be moved. */
  ghost function Successes(s: State, g: Log): int {
    |g.chain| - 1 - g.tailPos + Pending(s.producers) + Retriers(s.producers)
  }

  /** What one success is worth: it can cost every producer a round. */
  function Worth(producers: nat): nat {
    4 * producers + 4
  }

  /** A bound on the number of turns that the producers can still take. */
  ghost function Budget(s: State, g: Log): int {
    Costs(s, s.producers) + Worth(|s.producers|) * Successes(s, g)
  }

  /** What starting to append a segment adds to it. */
  function Grant(producers: nat, a: Action): nat {
    if a.Begin? then 4 + Worth(producers) * (|a.nodes| + 1) else 0
  }

  // ---------------------------------------------------------------- every turn uses some of it up

  lemma {:induction false} RetriersUpdate(ps: seq<Producer>, p: nat, pc: Producer)
    requires p < |ps|
    ensures Retriers(ps[p := pc]) == Retriers(ps) - (if Retrying(ps[p]) then 1 else 0) + (if Retrying(pc) then 1 else 0)
  {
    var l := |ps| - 1;
    if p == l {
      assert ps[p := pc][..l] == ps[..l];
    } else {
      assert ps[p := pc][..l] == ps[..l][p := pc];
      RetriersUpdate(ps[..l], p, pc);
    }
  }

  /** Nobody but `p` is affected. */
  lemma {:induction false} CostsKept(s: State, s': State, ps: seq<Producer>, p: nat, pc: Producer)
    requires forall q :: 0 <= q < |ps| && q != p ==> (Stale(s', ps[q]) <==> Stale(s, ps[q]))
    ensures Costs(s', if p < |ps| then ps[p := pc] else ps) ==
            Costs(s, ps) + if p < |ps| then Cost(s', pc) - Cost(s, ps[p]) else 0
  {
    if ps != [] {
      var l := |ps| - 1;
      CostsKept(s, s', ps[..l], p, pc);
      if p < |ps| {
        assert ps[p := pc][..l] == if p < l then ps[..l][p := pc] else ps[..l];
      }
    }
  }

  /** At worst everybody else has to go round once more. */
  lemma {:induction false} CostsRise(s: State, s': State, ps: seq<Producer>, p: nat, pc: Producer)
    ensures Costs(s', if p < |ps| then ps[p := pc] else ps) <=
            Costs(s, ps) + 4 * |ps| + if p < |ps| then Cost(s', pc) - Cost(s, ps[p]) else 0
  {
    if ps != [] {
      var l := |ps| - 1;
      CostsRise(s, s', ps[..l], p, pc);
      if p < |ps| {
        assert ps[p := pc][..l] == if p < l then ps[..l][p := pc] else ps[..l];
      }
    }
  }

  /** A turn that succeeds in nothing brings its producer one turn nearer to the end. */
  lemma FailingTurn(s: State, g: Log, p: nat)
    requires Inv(s, g) && Enabled(s, Step(p)) && !Succeeds(s, g, Step(p))
    ensures Cost(Apply(s, Step(p)), Apply(s, Step(p)).producers[p]) < Cost(s, s.producers[p])
    ensures Successes(Apply(s, Step(p)), Record(s, g, Step(p))) == Successes(s, g)
  {
    var pc := s.producers[p];
    assert ProducerInv(s, g.chain, g.tailPos, pc);
    KnownNode(s, g, pc);
    TailStays(s, g, p);
    PendingUpdate(s.producers, p, Apply(s, Step(p)).producers[p]);
    RetriersUpdate(s.producers, p, Apply(s, Step(p)).producers[p]);
    assert pc.SwingCas? ==> s.tail != pc.last;
    assert pc.HelpCas? ==> s.tail != pc.last;
  }

  lemma SucceedingTurn(s: State, g: Log, p: nat)
    requires Inv(s, g) && Enabled(s, Step(p)) && Succeeds(s, g, Step(p))
    ensures Successes(Apply(s, Step(p)), Record(s, g, Step(p))) <= Successes(s, g) - 1
    ensures Cost(Apply(s, Step(p)), Apply(s, Step(p)).producers[p]) <= 4
  {
    var pc := s.producers[p];
    assert ProducerInv(s, g.chain, g.tailPos, pc);
    PendingUpdate(s.producers, p, Apply(s, Step(p)).producers[p]);
    RetriersUpdate(s.producers, p, Apply(s, Step(p)).producers[p]);
  }

  lemma Spend(worth: nat, n: int, n': int)
    requires n' <= n - 1
    ensures worth * n' <= worth * n - worth
  {
    var d := n - 1 - n';
    assert worth * d >= 0;
    assert worth * (n' + 1 + d) == worth * n' + worth + worth * d;
  }

  lemma TurnSpends(s: State, g: Log, p: nat)
    requires Inv(s, g) && Enabled(s, Step(p))
    ensures Budget(Apply(s, Step(p)), Record(s, g, Step(p))) < Budget(s, g)
  {
    var s', g' := Apply(s, Step(p)), Record(s, g, Step(p));
    assert s'.producers == s.producers[p := s'.producers[p]];
    hide Inv, Costs, Successes, Stale, Worth;
    if Succeeds(s, g, Step(p)) {
      SucceedingTurn(s, g, p);
      CostsRise(s, s', s.producers, p, s'.producers[p]);
      Spend(Worth(|s.producers|), Successes(s, g), Successes(s', g'));
      WorthIs(|s.producers|);
    } else {
      FailingTurn(s, g, p);
      forall q | 0 <= q < |s.producers| && q != p ensures Stale(s', s.producers[q]) <==> Stale(s, s.producers[q]) {
        OthersKeep(s, g, Step(p), q);
      }
      CostsKept(s, s', s.producers, p, s'.producers[p]);
    }
  }

  lemma WorthIs(producers: nat)
    ensures Worth(producers) == 4 * producers + 4
  {
  }

  lemma OtherActions(s: State, g: Log, a: Action)
    requires Inv(s, g) && Enabled(s, a) && !a.Step?
    ensures Budget(Apply(s, a), Record(s, g, a)) == Budget(s, g) + Grant(|s.producers|, a)
  {
    var s', g' := Apply(s, a), Record(s, g, a);
    var p := if a.Begin? then a.p else |s.producers|;
    var pc := if a.Begin? then LoadTail(a.nodes) else Idle;
    forall q | 0 <= q < |s.producers| && q != p ensures Stale(s', s.producers[q]) <==> Stale(s, s.producers[q]) {
      OthersKeep(s, g, a, q);
    }
    CostsKept(s, s', s.producers, p, pc);
    hide Inv, Costs, Stale, Pending, Retriers, PrivateChain, Worth;
    if a.Begin? {
      PendingUpdate(s.producers, p, pc);
      RetriersUpdate(s.producers, p, pc);
      assert Successes(s', g') == Successes(s, g) + (|a.nodes| + 1);
      Distribute(Worth(|s.producers|), Successes(s, g), |a.nodes| + 1);
    }
  }

  lemma Distribute(worth: int, n: int, more: int)
    ensures worth * (n + more) == worth * n + worth * more
  {
  }

  // ---------------------------------------------------------------- whole runs

  function Turns(actions: seq<Action>): nat {
    if actions == [] then 0 else (if actions[0].Step? then 1 else 0) + Turns(actions[1..])
  }

  function Granted(producers: nat, actions: seq<Action>): nat {
    if actions == [] then 0 else Grant(producers, actions[0]) + Granted(producers, actions[1..])
  }

  lemma {:induction false} RunSpends(s: State, g: Log, actions: seq<Action>)
    requires Inv(s, g) && Runnable(s, actions)
    ensures Turns(actions) + Budget(After(s, actions), LogAfter(s, g, actions)) <= Budget(s, g) + Granted(|s.producers|, actions)
    decreases |actions|
  {
    if actions != [] {
      var a := actions[0];
      hide Inv, Budget, Grant;
      StepInv(s, g, a);
      if a.Step? {
        TurnSpends(s, g, a.p);
        NoGrant(|s.producers|, a);
      } else {
        OtherActions(s, g, a);
      }
      RunSpends(Apply(s, a), Record(s, g, a), actions[1..]);
    }
  }

  lemma NoGrant(producers: nat, a: Action)
    requires a.Step?
    ensures Grant(producers, a) == 0
  {
  }

  lemma BudgetPositive(s: State, g: Log)
    requires Inv(s, g)
    ensures Budget(s, g) >= 0
  {
    assert Successes(s, g) >= 0;
  }

  /** Lock freedom: in any run the producers together take at most four turns for every push or splice, and
      `4 * producers + 4` more for it and for each of its nodes.  So in a run in which no more appends are
      started the producers come to rest, however the threads are interleaved and whichever are stopped. */
  lemma ProgressBound(producers: nat, actions: seq<Action>)
    requires Runnable(Init(producers), actions)
    ensures Turns(actions) <= Granted(producers, actions)
  {
    InitInv(producers);
    RunInv(Init(producers), EMPTY_LOG, actions);
    RunSpends(Init(producers), EMPTY_LOG, actions);
    BudgetPositive(After(Init(producers), actions), LogAfter(Init(producers), EMPTY_LOG, actions));
    StartBudget(Init(producers).producers, Init(producers));
  }

  lemma {:induction false} StartBudget(ps: seq<Producer>, s: State)
    requires forall i :: 0 <= i < |ps| ==> ps[i] == Idle
    ensures Costs(s, ps) == 0 && Pending(ps) == 0 && Retriers(ps) == 0
  {
    if ps != [] {
      StartBudget(ps[..|ps| - 1], s);
    }
  }
}
