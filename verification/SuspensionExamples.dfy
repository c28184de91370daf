/** Four small phases that a suspension keeps from doing what they mean. */
module SuspensionExamples {
  import opened Pipeline
  import opened Suspensions
  import C = Conditions

  const FRESH: Ctx := Ctx(true, 0, 0, 0, 0, 0, [], false, false, 0)

  function Asks(id: nat, yes: bool): C.Cond { C.Test(id, if yes then C.True else C.False, false) }
  function Waits(id: nat, yes: bool): C.Cond { C.Wait(id, if yes then C.True else C.False, false) }
  function If(cond: C.Cond, actions: seq<Action>): Rule { Rule(false, 0, cond, actions, []) }
  function Then(rules: seq<Rule>): RuleList { RuleList(false, 0, rules) }

  function Lists(a: seq<Rule>, b: seq<Rule>): Phase { Phase(0, [Then(a), Then(b)]) }

  /** A list of one rule. */
  lemma One(rule: Rule, ctx: Ctx, w: seq<bool>)
    requires RuleOK(rule) && ctx.ruleGen == 0
    ensures var r := RuleThrough(rule, ctx.(ruleI := 0), w, 0, 0);
      RulesThrough(Then([rule]), 0, ctx, w, 0) ==
        if r.rc == OK then r.(ctx := r.ctx.(ruleI := 0)) else if r.rc == Skip then r.(rc := OK) else r
    ensures RulesMeaning([rule]) ==
      if RuleMeaning(rule).rc == Skip then Meaning(OK, RuleMeaning(rule).log) else RuleMeaning(rule)
  {
    assert [rule][1..] == [];
    var r := RuleThrough(rule, ctx.(ruleI := 0), w, 0, 0);
    assert r.log + [] == r.log && RuleMeaning(rule).log + [] == RuleMeaning(rule).log;
  }

  /** Two lists, of which the first ends well. */
  lemma TwoRun(a: seq<Rule>, b: seq<Rule>, w: seq<bool>)
    requires ListOK(Then(a)) && ListOK(Then(b)) && RulesThrough(Then(a), 0, FRESH, w, 0).rc == OK
    ensures PhaseOK(Lists(a, b))
    ensures var r := RulesThrough(Then(a), 0, FRESH, w, 0);
      Run(Lists(a, b), FRESH, w).log == r.log + ListThrough(Then(b), r.ctx.(listI := 1), r.world, 0).log
  {
    var phase := Lists(a, b);
    RunIsThrough(phase, FRESH, w);
    assert FRESH.(listI := 0) == FRESH;
    var r := ListThrough(Then(a), FRESH, w, 0);
    assert r == RulesThrough(Then(a), 0, FRESH, w, 0);
    var q := ListThrough(Then(b), r.ctx.(listI := 1), r.world, 0);
    assert q.log + [] == q.log && ListsThrough(phase, 2, q.ctx, q.world).log == [];
    assert ListsThrough(phase, 1, r.ctx, r.world).log == q.log;
    assert ListsThrough(phase, 0, FRESH, w).log == r.log + q.log;
  }

  lemma TwoMean(a: seq<Rule>, b: seq<Rule>)
    requires RulesMeaning(a).rc == OK
    ensures ListsMeaning(Lists(a, b).lists).log == RulesMeaning(a).log + RulesMeaning(b).log
  {
    assert [Then(a), Then(b)][1..] == [Then(b)] && [Then(b)][1..] == [];
    var m := RulesMeaning(b);
    assert ListsMeaning([]).log == [] && m.log + [] == m.log;
    assert ListMeaning(Then(b)) == m && ListsMeaning([Then(b)]).log == m.log;
  }

  const SKIPS: Rule := If(Asks(1, true), [Action(1, false, Skip)])
  const WAITS: Rule := If(Waits(2, false), [Action(3, false, OK)])

  /** "skip", and then a condition that waits: it is not asked again, and the action of the
      wrong clause is carried out. */
  lemma SkipThenWait()
    ensures PhaseOK(Lists([SKIPS], [WAITS]))
    ensures Run(Lists([SKIPS], [WAITS]), FRESH, [true]).log == [Leaf(1), Act(1)] + [Act(3)]
    ensures ListsMeaning(Lists([SKIPS], [WAITS]).lists).log == [Leaf(1), Act(1)] + [Leaf(2)]
  {
    var c := FRESH.(done := true, isTrue := true);
    assert RuleEval(SKIPS, FRESH, [true]) == Result(Skip, c, [true], [Leaf(1), Act(1)]);
    assert RuleMeaning(SKIPS) == Meaning(Skip, [Leaf(1), Act(1)]);
    One(SKIPS, FRESH, [true]);
    var d := c.(listI := 1);
    assert RuleEval(WAITS, d, [true]) == Result(Defer, d.(stack := [0]), [], []);
    assert ActionsEval(WAITS, Back(d.(stack := [0]), 0, 0), []).log == [Act(3)];
    assert RuleThrough(WAITS, d, [true], 0, 0).log == [Act(3)];
    assert RuleMeaning(WAITS).log == [Leaf(2)];
    One(WAITS, d, [true]);
    TwoRun([SKIPS], [WAITS], [true]);
    TwoMean([SKIPS], [WAITS]);
  }

  const WAITS_AND_SKIPS: Rule := If(Waits(1, true), [Action(1, false, Skip)])
  const NO: Rule := If(Asks(2, false), [Action(3, false, OK)])

  /** A wait, and then "skip": the next condition is not asked although it need not wait,
      and the action of the wrong clause is carried out. */
  lemma WaitThenSkip()
    ensures PhaseOK(Lists([WAITS_AND_SKIPS], [NO]))
    ensures Run(Lists([WAITS_AND_SKIPS], [NO]), FRESH, [true]).log == [Leaf(1), Act(1)] + [Act(3)]
    ensures ListsMeaning(Lists([WAITS_AND_SKIPS], [NO]).lists).log == [Leaf(1), Act(1)] + [Leaf(2)]
  {
    var c := WaitAndSkip();
    One(WAITS_AND_SKIPS, FRESH, [true]);
    var d := c.(listI := 1);
    assert ActionsEval(NO, d, []).log == [Act(3)];
    assert RuleThrough(NO, d, [], 0, 0).log == [Act(3)];
    assert RuleMeaning(NO).log == [Leaf(2)];
    One(NO, d, []);
    TwoRun([WAITS_AND_SKIPS], [NO], [true]);
    TwoMean([WAITS_AND_SKIPS], [NO]);
  }

  lemma WaitAndSkip() returns (c: Ctx)
    ensures c == Back(FRESH, 0, 0).(done := true, isTrue := true)
    ensures RuleThrough(WAITS_AND_SKIPS, FRESH, [true], 0, 0) == Result(Skip, c, [], [Leaf(1), Act(1)])
    ensures RuleMeaning(WAITS_AND_SKIPS) == Meaning(Skip, [Leaf(1), Act(1)])
  {
    var b := Back(FRESH.(stack := [0]), 0, 0);
    c := b.(stack := [], done := true, isTrue := true);
    assert RuleEval(WAITS_AND_SKIPS, FRESH, [true]) == Result(Defer, FRESH.(stack := [0]), [], []);
    assert RuleEval(WAITS_AND_SKIPS, b, []) == Result(Skip, c, [], [Leaf(1), Act(1)]);
  }

  const YES: Rule := If(Asks(3, true), [Action(3, false, OK)])

  /** A wait, and then "skip" from the second rule of a list: the only rule of the next list
      is passed over. */
  lemma SkipFromSecond()
    ensures PhaseOK(Lists([WAITS, SKIPS], [YES]))
    ensures Run(Lists([WAITS, SKIPS], [YES]), FRESH, [true]).log == [Leaf(2), Leaf(1), Act(1)] + []
    ensures ListsMeaning(Lists([WAITS, SKIPS], [YES]).lists).log == [Leaf(2), Leaf(1), Act(1)] + [Leaf(3), Act(3)]
  {
    var d := FirstOfTwo();
    assert [WAITS, SKIPS][1..] == [SKIPS];
    assert RuleMeaning(WAITS) == Meaning(OK, [Leaf(2)]) && RuleMeaning(SKIPS) == Meaning(Skip, [Leaf(1), Act(1)]);
    assert RuleMeaning(YES) == Meaning(OK, [Leaf(3), Act(3)]);
    One(SKIPS, FRESH, []);
    One(YES, FRESH, []);
    TwoRun([WAITS, SKIPS], [YES], [true]);
    TwoMean([WAITS, SKIPS], [YES]);
  }

  lemma FirstOfTwo() returns (d: Ctx)
    ensures d == Back(FRESH, 0, 0).(ruleI := 1, done := true, isTrue := true)
    ensures RulesThrough(Then([WAITS, SKIPS]), 0, FRESH, [true], 0) == Result(OK, d, [], [Leaf(2)] + [Leaf(1), Act(1)])
  {
    var list, b := Then([WAITS, SKIPS]), Back(FRESH.(stack := [0]), 0, 0);
    var c := b.(stack := []);
    assert RuleEval(WAITS, FRESH, [true]) == Result(Defer, FRESH.(stack := [0]), [], []);
    assert RuleEval(WAITS, b, []) == Result(OK, c, [], [Leaf(2)]);
    assert RuleThrough(WAITS, FRESH, [true], 0, 0) == Result(OK, c, [], [Leaf(2)]);
    d := c.(ruleI := 1, done := true, isTrue := true);
    assert RuleThrough(SKIPS, c.(ruleI := 1), [], 0, 0) == Result(Skip, d, [], [Leaf(1), Act(1)]);
    assert RulesThrough(list, 1, c, [], 0) == Result(OK, d, [], [Leaf(1), Act(1)]);
  }

  const WAITS_LATE: Rule := If(Asks(1, true), [Action(1, false, OK), Action(2, true, OK)])

  /** A wait that is not the first action of its clause: the action of the next rule is not
      carried out. */
  lemma WaitPastFirst()
    ensures PhaseOK(Lists([WAITS_LATE], [YES]))
    ensures Run(Lists([WAITS_LATE], [YES]), FRESH, [true]).log == [Leaf(1), Act(1), Act(2)] + [Leaf(3)]
    ensures ListsMeaning(Lists([WAITS_LATE], [YES]).lists).log == [Leaf(1), Act(1), Act(2)] + [Leaf(3), Act(3)]
  {
    var c, actions := FRESH.(done := true, isTrue := true), WAITS_LATE.thenActions;
    assert ActionsFrom(WAITS_LATE, actions, 1, c, [true]) == Result(Defer, c.(actionI := 1), [], []);
    assert ActionsFrom(WAITS_LATE, actions, 0, c, [true]) == Result(Defer, c.(actionI := 1), [], [Act(1)]);
    assert RuleEval(WAITS_LATE, FRESH, [true]) == Result(Defer, c.(actionI := 1), [], [Leaf(1), Act(1)]);
    var b := Back(c.(actionI := 1), 0, 0);
    var d := b.(done := false, isTrue := false);
    assert ActionsFrom(WAITS_LATE, actions, 2, b, []) == Result(OK, d, [], []);
    assert RuleThrough(WAITS_LATE, b, [], 0, 0) == Result(OK, d, [], [Act(2)]);
    assert RuleThrough(WAITS_LATE, FRESH, [true], 0, 0) == Result(OK, d, [], [Leaf(1), Act(1)] + [Act(2)]);
    assert actions[1..] == [Action(2, true, OK)] && actions[1..][1..] == [];
    assert ActionsMeaning(actions) == Meaning(OK, [Act(1)] + ([Act(2)] + []));
    assert RuleMeaning(WAITS_LATE) == Meaning(OK, [Leaf(1), Act(1), Act(2)]);
    assert RuleMeaning(YES) == Meaning(OK, [Leaf(3), Act(3)]);
    var e := d.(listI := 1);
    assert RuleThrough(YES, e, [], 0, 0).log == [Leaf(3)];
    One(WAITS_LATE, FRESH, [true]);
    One(YES, e, []);
    TwoRun([WAITS_LATE], [YES], [true]);
    TwoMean([WAITS_LATE], [YES]);
  }
}
