/**
  The rule-activation index of predicates/vm/rule_matcher.cpp: which rules have a tuple for each of their
  predicates, kept up to date as tuples come and go.
*/
module RuleMatcher {

  type RuleId = nat
  type PredicateId = nat

  /** A rule of the program; persistent rules are ignored. */
  datatype Rule = Rule(ignore: bool, preds: seq<PredicateId>)

  /** How often `x` occurs in `s`. */
  function Occurs(s: seq<nat>, x: nat): (n: nat)
    ensures n <= |s|
  {
    if s == [] then 0 else Occurs(s[..|s| - 1], x) + if s[|s| - 1] == x then 1 else 0
  }

  /** The number of positions in `preds` whose predicate has tuples. */
  function Have(preds: seq<PredicateId>, counts: seq<int>): (n: nat)
    ensures n <= |preds|
  {
    if preds == [] then 0
    else Have(preds[..|preds| - 1], counts)
         + if preds[|preds| - 1] < |counts| && counts[preds[|preds| - 1]] != 0 then 1 else 0
  }

  /** All predicates of the rule have tuples. */
  ghost predicate Satisfied(preds: seq<PredicateId>, counts: seq<int>) {
    forall j :: 0 <= j < |preds| ==> preds[j] < |counts| && counts[preds[j]] != 0
  }

  lemma {:induction false} HaveAll(preds: seq<PredicateId>, counts: seq<int>)
    ensures Have(preds, counts) == |preds| <==> Satisfied(preds, counts)
  {
    if preds != [] {
      var init := preds[..|preds| - 1];
      HaveAll(init, counts);
      if Satisfied(init, counts) && preds[|preds| - 1] < |counts| && counts[preds[|preds| - 1]] != 0 {
        forall j | 0 <= j < |preds| ensures preds[j] < |counts| && counts[preds[j]] != 0 {
          assert j < |init| ==> preds[j] == init[j];
        }
      }
      if Satisfied(preds, counts) {
        forall j | 0 <= j < |init| ensures init[j] < |counts| && counts[init[j]] != 0 {
          assert init[j] == preds[j];
        }
      }
    }
  }

  /** A predicate that gets its first tuple, or loses its last one, changes the number by its occurrences. */
  lemma {:induction false} HaveChanges(preds: seq<PredicateId>, counts: seq<int>, p: PredicateId, v: int)
    requires p < |counts| && counts[p] == 0 && v != 0
    ensures Have(preds, counts[p := v]) == Have(preds, counts) + Occurs(preds, p)
  {
    if preds != [] {
      HaveChanges(preds[..|preds| - 1], counts, p, v);
    }
  }

  lemma {:induction false} HaveKept(preds: seq<PredicateId>, counts: seq<int>, p: PredicateId, v: int)
    requires p < |counts| && counts[p] != 0 && v != 0
    ensures Have(preds, counts[p := v]) == Have(preds, counts)
  {
    if preds != [] {
      HaveKept(preds[..|preds| - 1], counts, p, v);
    }
  }

  /** The rules that have a tuple for each of their predicates, of which there is at least one. */
  ghost function Activated(rules: seq<Rule>, counts: seq<int>): set<RuleId> {
    set r | 0 <= r < |rules| && !rules[r].ignore && rules[r].preds != [] && Satisfied(rules[r].preds, counts)
  }

  // ---------------------------------------------------------------- the rules affected by a predicate

  /** `affected_rules`: a rule once for each of its uses of the predicate, in the order of the rules. */
  function Affected(rules: seq<Rule>, p: PredicateId): seq<RuleId> {
    if rules == [] then []
    else Affected(rules[..|rules| - 1], p) + Repeat(|rules| - 1, Occurs(rules[|rules| - 1].preds, p))
  }

  function Repeat(r: RuleId, n: nat): seq<RuleId> {
    if n == 0 then [] else Repeat(r, n - 1) + [r]
  }

  lemma {:induction false} OccursAppend(a: seq<nat>, b: seq<nat>, x: nat)
    ensures Occurs(a + b, x) == Occurs(a, x) + Occurs(b, x)
  {
    if b == [] {
      assert a + b == a;
    } else {
      assert (a + b)[..|a + b| - 1] == a + b[..|b| - 1];
      OccursAppend(a, b[..|b| - 1], x);
    }
  }

  lemma {:induction false} OccursRepeat(r: RuleId, n: nat, x: RuleId)
    ensures Occurs(Repeat(r, n), x) == if x == r then n else 0
  {
    if n > 0 {
      OccursRepeat(r, n - 1, x);
      assert Repeat(r, n)[..|Repeat(r, n)| - 1] == Repeat(r, n - 1);
    }
  }

  /** The list for a predicate has each rule as often as the rule has the predicate. */
  lemma {:induction false} AffectedOccurs(rules: seq<Rule>, p: PredicateId, r: RuleId)
    ensures Occurs(Affected(rules, p), r) == if r < |rules| then Occurs(rules[r].preds, p) else 0
  {
    if rules != [] {
      var init, last := rules[..|rules| - 1], |rules| - 1;
      AffectedOccurs(init, p, r);
      OccursRepeat(last, Occurs(rules[last].preds, p), r);
      OccursAppend(Affected(init, p), Repeat(last, Occurs(rules[last].preds, p)), r);
      assert r < |init| ==> init[r] == rules[r];
    }
  }

  lemma {:induction false} OccursIn(s: seq<nat>, x: nat)
    ensures Occurs(s, x) > 0 <==> x in s
  {
    if s != [] {
      OccursIn(s[..|s| - 1], x);
      assert s == s[..|s| - 1] + [s[|s| - 1]];
    }
  }

  lemma OccursPrefix(s: seq<nat>, k: nat, x: nat)
    requires k < |s|
    ensures Occurs(s[..k + 1], x) == Occurs(s[..k], x) + if s[k] == x then 1 else 0
    ensures Occurs(s[..k + 1], x) <= Occurs(s, x)
  {
    assert s[..k + 1][..k] == s[..k];
    assert s == s[..k + 1] + s[k + 1..];
    OccursAppend(s[..k + 1], s[k + 1..], x);
  }

  /** The lists as the program loader fills them (predicates/vm/program.cpp). */
  method BuildAffected(rules: seq<Rule>, predicates: nat) returns (affected: seq<seq<RuleId>>)
    requires forall r, j :: 0 <= r < |rules| && 0 <= j < |rules[r].preds| ==> rules[r].preds[j] < predicates
    ensures |affected| == predicates && forall p :: 0 <= p < predicates ==> affected[p] == Affected(rules, p)
  {
    affected := seq(predicates, _ => []);
    for i := 0 to |rules|
      invariant |affected| == predicates && forall p :: 0 <= p < predicates ==> affected[p] == Affected(rules[..i], p)
    {
      var preds := rules[i].preds;
      for j := 0 to |preds|
        invariant |affected| == predicates
        invariant forall p :: 0 <= p < predicates ==>
                    affected[p] == Affected(rules[..i], p) + Repeat(i, Occurs(preds[..j], p))
      {
        forall p ensures Occurs(preds[..j + 1], p) == Occurs(preds[..j], p) + if preds[j] == p then 1 else 0 {
          OccursPrefix(preds, j, p);
        }
        affected := affected[preds[j] := affected[preds[j]] + [i]];
      }
      assert preds[..|preds|] == preds && rules[..i + 1][..i] == rules[..i];
    }
    assert rules[..|rules|] == rules;
  }

  // ---------------------------------------------------------------- the matcher

  /** `total_have` of every rule. */
  ghost predicate HaveOk(rules: seq<Rule>, counts: seq<int>, have: seq<nat>, r: RuleId)
    requires r < |rules| == |have|
  {
    have[r] == if rules[r].ignore then 0 else Have(rules[r].preds, counts)
  }

  /** After the rules in `done` have each been counted once more, or once less. */
  ghost predicate Shifted(rules: seq<Rule>, have: seq<nat>, have': seq<nat>, done: seq<RuleId>, sign: int) {
    && |have| == |have'| == |rules|
    && forall r {:trigger have'[r]} :: 0 <= r < |rules| ==>
         have'[r] == have[r] + if rules[r].ignore then 0 else sign * Occurs(done, r)
  }

  /** The rules in `done` that have all of their predicates. */
  ghost function Full(rules: seq<Rule>, have: seq<nat>, done: seq<RuleId>): set<RuleId>
    requires |have| == |rules|
  {
    set r | r in done && r < |rules| && !rules[r].ignore && have[r] == |rules[r].preds|
  }

  lemma {:induction false} HaveNothing(preds: seq<PredicateId>, counts: seq<int>)
    requires forall p :: 0 <= p < |counts| ==> counts[p] == 0
    ensures Have(preds, counts) == 0
  {
    if preds != [] {
      HaveNothing(preds[..|preds| - 1], counts);
    }
  }

  /** An affected rule is a rule. */
  lemma AffectedIsRule(rules: seq<Rule>, p: PredicateId, r: RuleId)
    requires r in Affected(rules, p)
    ensures r < |rules| && Occurs(rules[r].preds, p) > 0 && rules[r].preds != []
  {
    OccursIn(Affected(rules, p), r);
    AffectedOccurs(rules, p, r);
  }

  lemma NothingShifted(rules: seq<Rule>, have: seq<nat>)
    requires |have| == |rules|
    ensures Shifted(rules, have, have, [], 1) && Shifted(rules, have, have, [], -1) && Full(rules, have, []) == {}
  {
    assert forall r: nat :: Occurs([], r) == 0;
  }

  lemma DoneSnoc(list: seq<RuleId>, k: nat)
    requires k < |list|
    ensures list[..k + 1] == list[..k] + [list[k]]
    ensures forall r :: r in list[..k + 1] <==> r == list[k] || r in list[..k]
  {
  }

  /** One rule is counted once more; when it is complete it is activated. */
  lemma RaiseStep(rules: seq<Rule>, have0: seq<nat>, have: seq<nat>, list: seq<RuleId>, k: nat)
    requires k < |list| && Shifted(rules, have0, have, list[..k], 1) && list[k] < |rules|
    requires !rules[list[k]].ignore ==> have0[list[k]] + Occurs(list, list[k]) <= |rules[list[k]].preds|
    ensures var r := list[k];
            var have' := if rules[r].ignore then have else have[r := have[r] + 1];
            && |have'| == |rules| && Shifted(rules, have0, have', list[..k + 1], 1)
            && Full(rules, have', list[..k + 1]) ==
                 Full(rules, have, list[..k]) + if !rules[r].ignore && have'[r] == |rules[r].preds| then {r} else {}
  {
    var r := list[k];
    var have' := if rules[r].ignore then have else have[r := have[r] + 1];
    DoneSnoc(list, k);
    forall q | 0 <= q < |rules|
      ensures have'[q] == have0[q] + if rules[q].ignore then 0 else 1 * Occurs(list[..k + 1], q)
    {
      OccursPrefix(list, k, q);
    }
    OccursPrefix(list, k, r);
  }

  /** One rule is counted once less; when it was complete it is dropped. */
  lemma LowerStep(rules: seq<Rule>, have0: seq<nat>, have: seq<nat>, list: seq<RuleId>, k: nat)
    requires k < |list| && Shifted(rules, have0, have, list[..k], -1) && list[k] < |rules|
    requires !rules[list[k]].ignore ==> Occurs(list, list[k]) <= have0[list[k]] <= |rules[list[k]].preds|
    ensures var r := list[k];
            && (!rules[r].ignore ==> have[r] > 0)
            && Shifted(rules, have0, if rules[r].ignore then have else have[r := have[r] - 1], list[..k + 1], -1)
            && Full(rules, have0, list[..k + 1]) ==
                 Full(rules, have0, list[..k]) + if !rules[r].ignore && have[r] == |rules[r].preds| then {r} else {}
  {
    var r := list[k];
    DoneSnoc(list, k);
    OccursPrefix(list, k, r);
    OccursIn(list[..k], r);
    forall q: nat | q < |rules| ensures Occurs(list[..k + 1], q) == Occurs(list[..k], q) + if q == r then 1 else 0 {
      OccursPrefix(list, k, q);
    }
  }

  /** The predicate `p` gets its first tuples; read the other way, it loses its last ones. */
  ghost predicate Appears(counts: seq<int>, counts': seq<int>, p: PredicateId) {
    p < |counts| == |counts'| && counts[p] == 0 && counts'[p] != 0 && counts' == counts[p := counts'[p]]
  }

  /** The counts of all rules after a change that lets the predicate `p` appear or disappear. */
  lemma AllCounted(rules: seq<Rule>, counts: seq<int>, counts': seq<int>, p: PredicateId, have: seq<nat>,
      have': seq<nat>, sign: int)
    requires (sign == 1 && Appears(counts, counts', p)) || (sign == -1 && Appears(counts', counts, p))
    requires Shifted(rules, have, have', Affected(rules, p), sign)
    requires forall r {:trigger HaveOk(rules, counts, have, r)} :: 0 <= r < |rules| ==> HaveOk(rules, counts, have, r)
    ensures forall r {:trigger HaveOk(rules, counts', have', r)} :: 0 <= r < |rules| ==>
              HaveOk(rules, counts', have', r)
  {
    forall r | 0 <= r < |rules| ensures HaveOk(rules, counts', have', r) {
      assert HaveOk(rules, counts, have, r);
      AffectedOccurs(rules, p, r);
      if sign == 1 {
        HaveChanges(rules[r].preds, counts, p, counts'[p]);
      } else {
        HaveChanges(rules[r].preds, counts', p, counts[p]);
      }
    }
  }

  /** Which rules become active. */
  lemma MoreActive(rules: seq<Rule>, counts: seq<int>, counts': seq<int>, p: PredicateId, have: seq<nat>,
      have': seq<nat>)
    requires Appears(counts, counts', p)
    requires |have| == |have'| == |rules|
    requires forall r {:trigger HaveOk(rules, counts, have, r)} :: 0 <= r < |rules| ==> HaveOk(rules, counts, have, r)
    requires forall r {:trigger HaveOk(rules, counts', have', r)} :: 0 <= r < |rules| ==>
               HaveOk(rules, counts', have', r)
    ensures Activated(rules, counts') == Activated(rules, counts) + Full(rules, have', Affected(rules, p))
    ensures Activated(rules, counts) !! Full(rules, have', Affected(rules, p))
  {
    forall r: nat | r < |rules|
      ensures r in Activated(rules, counts') <==>
              r in Activated(rules, counts) || r in Full(rules, have', Affected(rules, p))
      ensures r in Activated(rules, counts) ==> r !in Affected(rules, p)
    {
      assert HaveOk(rules, counts, have, r) && HaveOk(rules, counts', have', r);
      HaveAll(rules[r].preds, counts);
      HaveAll(rules[r].preds, counts');
      HaveChanges(rules[r].preds, counts, p, counts'[p]);
      AffectedOccurs(rules, p, r);
      OccursIn(Affected(rules, p), r);
    }
  }

  lemma SameActive(rules: seq<Rule>, counts: seq<int>, counts': seq<int>, p: PredicateId, have: seq<nat>)
    requires p < |counts| == |counts'| && counts[p] != 0 && counts'[p] != 0 && counts' == counts[p := counts'[p]]
    requires |have| == |rules|
    requires forall r {:trigger HaveOk(rules, counts, have, r)} :: 0 <= r < |rules| ==> HaveOk(rules, counts, have, r)
    ensures forall r {:trigger HaveOk(rules, counts', have, r)} :: 0 <= r < |rules| ==> HaveOk(rules, counts', have, r)
    ensures Activated(rules, counts') == Activated(rules, counts)
  {
    forall r: nat | r < |rules|
      ensures HaveOk(rules, counts', have, r) && (r in Activated(rules, counts') <==> r in Activated(rules, counts))
    {
      assert HaveOk(rules, counts, have, r);
      HaveKept(rules[r].preds, counts, p, counts'[p]);
      HaveAll(rules[r].preds, counts);
      HaveAll(rules[r].preds, counts');
    }
  }

  class Matcher {
    const rules: seq<Rule>
    const affected: seq<seq<RuleId>>
    var predicateCount: seq<int>
    var totalHave: seq<nat>
    var activeRules: set<RuleId>
    var droppedRules: set<RuleId>

    ghost predicate Tables()
      reads this
    {
      && |affected| == |predicateCount| && |totalHave| == |rules|
      && (forall p :: 0 <= p < |affected| ==> affected[p] == Affected(rules, p))
      && (forall p :: 0 <= p < |predicateCount| ==> predicateCount[p] >= 0)
    }

    /** Each rule knows how many of its predicates have tuples, the active rules are those that have them
        all, and no dropped rule is active. */
    ghost predicate Valid()
      reads this
    {
      && Tables()
      && (forall r {:trigger HaveOk(rules, predicateCount, totalHave, r)} :: 0 <= r < |rules| ==>
            HaveOk(rules, predicateCount, totalHave, r))
      && activeRules == Activated(rules, predicateCount)
      && droppedRules !! activeRules
    }

    constructor (rules: seq<Rule>, predicates: nat)
      requires forall r, j :: 0 <= r < |rules| && 0 <= j < |rules[r].preds| ==> rules[r].preds[j] < predicates
      ensures Valid() && activeRules == {} && droppedRules == {} && this.rules == rules
      ensures predicateCount == seq(predicates, _ => 0)
    {
      this.rules := rules;
      var lists := BuildAffected(rules, predicates);
      affected := lists;
      predicateCount, totalHave := seq(predicates, _ => 0), seq(|rules|, _ => 0);
      activeRules, droppedRules := {}, {};
      new;
      forall r | 0 <= r < |rules| ensures Have(rules[r].preds, predicateCount) == 0 {
        HaveNothing(rules[r].preds, predicateCount);
      }
      forall r | 0 <= r < |rules| && rules[r].preds != [] ensures !Satisfied(rules[r].preds, predicateCount) {
        HaveAll(rules[r].preds, predicateCount);
      }
    }

    /** `register_predicate_availability`: the loop over the affected rules. */
    method Available(p: PredicateId)
      requires Tables() && p < |affected|
      requires forall r :: r in affected[p] && r < |rules| && !rules[r].ignore ==>
                 totalHave[r] + Occurs(affected[p], r) <= |rules[r].preds|
      modifies this`totalHave, this`activeRules, this`droppedRules
      ensures |totalHave| == |rules| && Shifted(rules, old(totalHave), totalHave, affected[p], 1)
      ensures activeRules == old(activeRules) + Full(rules, totalHave, affected[p])
      ensures droppedRules == old(droppedRules) - Full(rules, totalHave, affected[p])
    {
      hide Full, Shifted, Occurs, Affected;
      ghost var have0 := totalHave;
      var list := affected[p];
      NothingShifted(rules, have0);
      for k := 0 to |list|
        invariant |totalHave| == |rules| && Shifted(rules, have0, totalHave, list[..k], 1)
        invariant activeRules == old(activeRules) + Full(rules, totalHave, list[..k])
        invariant droppedRules == old(droppedRules) - Full(rules, totalHave, list[..k])
      {
        var rule := list[k];
        AffectedIsRule(rules, p, rule);
        RaiseStep(rules, have0, totalHave, list, k);
        if rules[rule].ignore {
          continue;
        }
        totalHave := totalHave[rule := totalHave[rule] + 1];
        if totalHave[rule] == |rules[rule].preds| {
          activeRules := activeRules + {rule};
          droppedRules := droppedRules - {rule};
        }
      }
      assert list[..|list|] == list;
    }

    /** `register_predicate_unavailability`: the loop over the affected rules. */
    method Unavailable(p: PredicateId)
      requires Tables() && p < |affected|
      requires forall r :: r in affected[p] && r < |rules| && !rules[r].ignore ==>
                 Occurs(affected[p], r) <= totalHave[r] <= |rules[r].preds|
      modifies this`totalHave, this`activeRules, this`droppedRules
      ensures Shifted(rules, old(totalHave), totalHave, affected[p], -1)
      ensures activeRules == old(activeRules) - Full(rules, old(totalHave), affected[p])
      ensures droppedRules == old(droppedRules) + Full(rules, old(totalHave), affected[p])
    {
      hide Full, Shifted, Occurs, Affected;
      ghost var have0 := totalHave;
      var list := affected[p];
      NothingShifted(rules, have0);
      for k := 0 to |list|
        invariant |totalHave| == |rules| && Shifted(rules, have0, totalHave, list[..k], -1)
        invariant activeRules == old(activeRules) - Full(rules, have0, list[..k])
        invariant droppedRules == old(droppedRules) + Full(rules, have0, list[..k])
      {
        var rule := list[k];
        AffectedIsRule(rules, p, rule);
        LowerStep(rules, have0, totalHave, list, k);
        if rules[rule].ignore {
          continue;
        }
        if totalHave[rule] == |rules[rule].preds| {
          activeRules := activeRules - {rule};
          droppedRules := droppedRules + {rule};
        }
        totalHave := totalHave[rule := totalHave[rule] - 1];
      }
      assert list[..|list|] == list;
    }

    /** `register_tuple`: true when there was no tuple of this predicate.  A tuple that is not new may only
        be registered when its predicate has tuples. */
    method RegisterTuple(id: PredicateId, count: int, isNew: bool) returns (first: bool)
      requires Valid() && id < |predicateCount| && count > 0 && (!isNew ==> predicateCount[id] > 0)
      modifies this`predicateCount, this`totalHave, this`activeRules, this`droppedRules
      ensures Valid() && predicateCount == old(predicateCount)[id := old(predicateCount)[id] + count]
      ensures first <==> old(predicateCount)[id] == 0
      ensures droppedRules == old(droppedRules) - (activeRules - old(activeRules))
    {
      first := false;
      ghost var counts, have0 := predicateCount, totalHave;
      ghost var counts' := counts[id := counts[id] + count];
      if isNew {
        if predicateCount[id] == 0 {
          first := true;
          ReadyToRaise(rules, counts, counts', id, totalHave);
          Available(id);
          AllCounted(rules, counts, counts', id, have0, totalHave, 1);
          MoreActive(rules, counts, counts', id, have0, totalHave);
        }
      }
      if !first {
        SameActive(rules, counts, counts', id, totalHave);
      }
      predicateCount := predicateCount[id := predicateCount[id] + count];
    }

    /** `deregister_tuple`: true when no tuple of this predicate is left. */
    method DeregisterTuple(id: PredicateId, count: int) returns (last: bool)
      requires Valid() && id < |predicateCount| && 0 < count <= predicateCount[id]
      modifies this`predicateCount, this`totalHave, this`activeRules, this`droppedRules
      ensures Valid() && predicateCount == old(predicateCount)[id := old(predicateCount)[id] - count]
      ensures last <==> predicateCount[id] == 0
      ensures droppedRules == old(droppedRules) + (old(activeRules) - activeRules)
    {
      ghost var counts, have0 := predicateCount, totalHave;
      ghost var counts' := counts[id := counts[id] - count];
      last := predicateCount[id] == count;
      if last {
        assert counts'[id := counts[id]] == counts;
        ReadyToLower(rules, counts, counts', id, totalHave);
        Unavailable(id);
        AllCounted(rules, counts, counts', id, have0, totalHave, -1);
        MoreActive(rules, counts', counts, id, totalHave, have0);
      } else {
        SameActive(rules, counts, counts', id, totalHave);
      }
      predicateCount := predicateCount[id := predicateCount[id] - count];
    }

    /** `clear_dropped_rules`. */
    method ClearDroppedRules()
      requires Valid()
      modifies this`droppedRules
      ensures Valid() && droppedRules == {}
    {
      droppedRules := {};
    }
  }

  lemma ReadyToRaise(rules: seq<Rule>, counts: seq<int>, counts': seq<int>, p: PredicateId, have: seq<nat>)
    requires Appears(counts, counts', p)
    requires |have| == |rules|
    requires forall r {:trigger HaveOk(rules, counts, have, r)} :: 0 <= r < |rules| ==> HaveOk(rules, counts, have, r)
    ensures forall r :: r in Affected(rules, p) && r < |rules| && !rules[r].ignore ==>
              have[r] + Occurs(Affected(rules, p), r) <= |rules[r].preds|
  {
    forall r | r in Affected(rules, p) && r < |rules| && !rules[r].ignore
      ensures have[r] + Occurs(Affected(rules, p), r) <= |rules[r].preds|
    {
      assert HaveOk(rules, counts, have, r);
      AffectedOccurs(rules, p, r);
      HaveChanges(rules[r].preds, counts, p, counts'[p]);
    }
  }

  lemma ReadyToLower(rules: seq<Rule>, counts: seq<int>, counts': seq<int>, p: PredicateId, have: seq<nat>)
    requires Appears(counts', counts, p)
    requires |have| == |rules|
    requires forall r {:trigger HaveOk(rules, counts, have, r)} :: 0 <= r < |rules| ==> HaveOk(rules, counts, have, r)
    ensures forall r :: r in Affected(rules, p) && r < |rules| && !rules[r].ignore ==>
              Occurs(Affected(rules, p), r) <= have[r] <= |rules[r].preds|
  {
    forall r | r in Affected(rules, p) && r < |rules| && !rules[r].ignore
      ensures Occurs(Affected(rules, p), r) <= have[r] <= |rules[r].preds|
    {
      assert HaveOk(rules, counts, have, r);
      AffectedOccurs(rules, p, r);
      HaveChanges(rules[r].preds, counts', p, counts[p]);
    }
  }
}
