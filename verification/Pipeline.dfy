/** Rules, rule lists and phases: an evaluation that is suspended anywhere below is
    entered again from the top, and finds its way back by the indices, the generations
    and the condition stack saved in the request's context. */
module Pipeline {
  import opened Basics
  import C = Conditions

  datatype Rc = Reject | Accept | OK | Skip | Defer | Error

  /** An action that waits may defer before it is carried out. */
  datatype Action = Action(id: nat, waits: bool, rc: Rc)
  datatype Rule = Rule(disabled: bool, gen: int, cond: C.Cond, thenActions: seq<Action>, elseActions: seq<Action>)
  datatype RuleList = RuleList(disabled: bool, gen: int, rules: seq<Rule>)
  datatype Phase = Phase(gen: int, lists: seq<RuleList>)

  /** The saved context of a request. */
  datatype Ctx = Ctx(nocheck: bool, phaseGen: int, listI: nat, listGen: int,
                     ruleI: nat, ruleGen: int, stack: seq<int>, done: bool, isTrue: bool, actionI: nat)

  datatype Event = Leaf(leaf: nat) | Act(action: nat)
  datatype Result = Result(rc: Rc, ctx: Ctx, world: seq<bool>, log: seq<Event>)

  function Leaves(ids: seq<nat>): (r: seq<Event>)
    ensures |r| == |ids|
  {
    seq(|ids|, k requires 0 <= k < |ids| => Leaf(ids[k]))
  }

  // ---------- what a phase means ----------

  datatype Meaning = Meaning(rc: Rc, log: seq<Event>)

  function After(log: seq<Event>, m: Meaning): Meaning { Meaning(m.rc, log + m.log) }

  /** The actions of a clause, in order, up to the first that does not return OK. */
  function ActionsMeaning(actions: seq<Action>): (m: Meaning) {
    if actions == [] then Meaning(OK, [])
    else if actions[0].rc == OK then After([Act(actions[0].id)], ActionsMeaning(actions[1..]))
    else Meaning(actions[0].rc, [Act(actions[0].id)])
  }

  function Clause(rule: Rule, isTrue: bool): seq<Action> {
    if isTrue then rule.thenActions else rule.elseActions
  }

  function RuleMeaning(rule: Rule): (m: Meaning) {
    if rule.disabled then Meaning(OK, [])
    else
      var c := C.MeaningOf(rule.cond);
      if c.rc == C.True || c.rc == C.False then After(Leaves(c.leaves), ActionsMeaning(Clause(rule, c.rc == C.True)))
      else Meaning(if c.rc == C.Error then Error else Defer, Leaves(c.leaves))
  }

  /** The rules in order, up to the first that does not return OK; "skip" ends the list. */
  function RulesMeaning(rules: seq<Rule>): (m: Meaning) {
    if rules == [] then Meaning(OK, [])
    else
      var m := RuleMeaning(rules[0]);
      if m.rc == OK then After(m.log, RulesMeaning(rules[1..]))
      else if m.rc == Skip then Meaning(OK, m.log)
      else m
  }

  function ListMeaning(list: RuleList): (m: Meaning) {
    if list.disabled then Meaning(OK, []) else RulesMeaning(list.rules)
  }

  function ListsMeaning(lists: seq<RuleList>): (m: Meaning) {
    if lists == [] then Meaning(OK, [])
    else
      var m := ListMeaning(lists[0]);
      if m.rc == OK then After(m.log, ListsMeaning(lists[1..])) else m
  }

  // ---------- the meaning in other words ----------

  /** A rule whose leaves answer carries out its "then" actions if its condition holds and
      its "else" actions if not; a condition that fails is an error, and nothing is done. */
  lemma RuleMeans(rule: Rule)
    requires !rule.disabled
    ensures C.Answers(rule.cond) ==> RuleMeaning(rule) == After(Leaves(C.MeaningOf(rule.cond).leaves),
      ActionsMeaning(if C.Holds(rule.cond) then rule.thenActions else rule.elseActions))
    ensures C.MeaningOf(rule.cond).rc == C.Error ==>
      RuleMeaning(rule) == Meaning(Error, Leaves(C.MeaningOf(rule.cond).leaves))
  {
    if C.Answers(rule.cond) {
      C.MeaningHolds(rule.cond);
    }
  }

  function Acts(actions: seq<Action>): (log: seq<Event>)
    ensures |log| == |actions|
  {
    seq(|actions|, i requires 0 <= i < |actions| => Act(actions[i].id))
  }

  /** Actions are carried out up to the first that is not OK, with that one, and its code is
      that of the clause. */
  lemma {:induction false} ActionsMean(actions: seq<Action>, k: nat)
    requires k <= |actions| && forall i :: 0 <= i < k ==> actions[i].rc == OK
    requires k < |actions| ==> actions[k].rc != OK
    ensures ActionsMeaning(actions) ==
      if k < |actions| then Meaning(actions[k].rc, Acts(actions[..k + 1])) else Meaning(OK, Acts(actions))
    decreases k
  {
    if k > 0 {
      ActionsMean(actions[1..], k - 1);
      var n := if k < |actions| then k + 1 else k;
      assert actions[1..][..n - 1] == actions[..n][1..] && actions[..|actions|] == actions;
      assert Acts(actions[..n]) == [Act(actions[0].id)] + Acts(actions[..n][1..]);
    } else if actions != [] {
      assert Acts(actions[..1]) == [Act(actions[0].id)];
    }
  }

  /** What the first k rules ask and do. */
  function RulesLog(rules: seq<Rule>, k: nat): (log: seq<Event>)
    requires k <= |rules|
  {
    if k == 0 then [] else RulesLog(rules, k - 1) + RuleMeaning(rules[k - 1]).log
  }

  /** Rules are carried out up to the first, k, that is not OK, with that one; if that one
      skips, the list is OK, and else the list ends as it does. */
  lemma {:induction false} RulesMean(rules: seq<Rule>, k: nat, i: nat)
    requires i <= k <= |rules| && forall j :: 0 <= j < k ==> RuleMeaning(rules[j]).rc == OK
    requires k < |rules| ==> RuleMeaning(rules[k]).rc != OK
    ensures var m := RulesMeaning(rules[i..]);
      && RulesLog(rules, i) + m.log == RulesLog(rules, if k < |rules| then k + 1 else k)
      && m.rc == if k == |rules| || RuleMeaning(rules[k]).rc == Skip then OK else RuleMeaning(rules[k]).rc
    decreases k - i
  {
    if i < |rules| {
      FromOn(rules, i);
      if i < k {
        RulesMean(rules, k, i + 1);
        Regroup(RulesLog(rules, i), RuleMeaning(rules[i]).log, RulesMeaning(rules[i + 1..]).log);
      }
    }
  }

  /** What the first k lists ask and do. */
  function ListsLog(lists: seq<RuleList>, k: nat): (log: seq<Event>)
    requires k <= |lists|
  {
    if k == 0 then [] else ListsLog(lists, k - 1) + ListMeaning(lists[k - 1]).log
  }

  /** Lists are carried out up to the first, k, that is not OK. */
  lemma {:induction false} ListsMean(lists: seq<RuleList>, k: nat, i: nat)
    requires i <= k <= |lists| && forall j :: 0 <= j < k ==> ListMeaning(lists[j]).rc == OK
    requires k < |lists| ==> ListMeaning(lists[k]).rc != OK
    ensures var m := ListsMeaning(lists[i..]);
      && ListsLog(lists, i) + m.log == ListsLog(lists, if k < |lists| then k + 1 else k)
      && m.rc == if k < |lists| then ListMeaning(lists[k]).rc else OK
    decreases k - i
  {
    if i < |lists| {
      FromOn(lists, i);
      if i < k {
        ListsMean(lists, k, i + 1);
        Regroup(ListsLog(lists, i), ListMeaning(lists[i]).log, ListsMeaning(lists[i + 1..]).log);
      }
    }
  }

  /** What is disabled asks nothing and does nothing. */
  lemma DisabledIsIdle(rule: Rule, list: RuleList)
    ensures rule.disabled ==> RuleMeaning(rule) == Meaning(OK, [])
    ensures ListMeaning(list) == if list.disabled then Meaning(OK, []) else RulesMeaning(list.rules)
  {
  }

  // ---------- one evaluation, from the top ----------

  /** wfx_rule_actions_eval, from action i on. */
  function ActionsFrom(rule: Rule, actions: seq<Action>, i: nat, ctx: Ctx, w: seq<bool>): (r: Result)
    decreases |actions| - i
  {
    if i >= |actions| then Result(OK, ctx.(done := false, isTrue := false), w, [])
    else
      var a := actions[i];
      if a.waits && C.Asked(w) then Result(Defer, ctx.(ruleGen := rule.gen, actionI := i), C.Later(w), [])
      else
        var w' := if a.waits then C.Later(w) else w;
        if a.rc == OK then
          var r := ActionsFrom(rule, actions, i + 1, ctx, w');
          r.(log := [Act(a.id)] + r.log)
        else Result(a.rc, ctx, w', [Act(a.id)])
  }

  function ActionsEval(rule: Rule, ctx: Ctx, w: seq<bool>): (r: Result) {
    ActionsFrom(rule, Clause(rule, ctx.isTrue), if ctx.nocheck then 0 else ctx.actionI, ctx, w)
  }

  /** A rule whose generation is not the saved one starts over. */
  function Checked(rule: Rule, ctx: Ctx): Ctx {
    if !ctx.nocheck && ctx.ruleGen != rule.gen
    then ctx.(ruleI := 0, ruleGen := 0, stack := [], done := false, isTrue := false, actionI := 0)
    else ctx
  }

  function RuleEval(rule: Rule, ctx0: Ctx, w: seq<bool>): (r: Result) {
    if rule.disabled then Result(OK, ctx0, w, [])
    else
      var ctx := Checked(rule, ctx0);
      if ctx.nocheck || !ctx.done then Fresh(rule, ctx, w) else ActionsEval(rule, ctx, w)
  }

  /** The condition, and on a verdict the actions of its clause. */
  function Fresh(rule: Rule, ctx: Ctx, w: seq<bool>): (r: Result) {
    var o := C.Eval(rule.cond, ctx.stack, w);
    var ctx1 := ctx.(stack := o.stack);
    match o.rc
    case Error => Result(Error, ctx1, o.world, Leaves(o.leaves))
    case Defer => Result(Defer, ctx1, o.world, Leaves(o.leaves))
    case _ =>
      var r := ActionsEval(rule, ctx1.(done := true, isTrue := o.rc == C.True), o.world);
      r.(log := Leaves(o.leaves) + r.log)
  }

  /** wfx_list_eval, from rule i on. */
  function RulesFrom(list: RuleList, i: nat, ctx: Ctx, w: seq<bool>): (r: Result)
    decreases |list.rules| - i
  {
    if i >= |list.rules| then Result(OK, ctx.(ruleI := 0), w, [])
    else
      var r := RuleEval(list.rules[i], ctx.(ruleI := i), w);
      match r.rc
      case OK => var q := RulesFrom(list, i + 1, r.ctx, r.world); q.(log := r.log + q.log)
      case Skip => r.(rc := OK)
      case Defer => r.(ctx := r.ctx.(listGen := list.gen))
      case _ => r
  }

  function ListStart(list: RuleList, ctx: Ctx): nat {
    if ctx.nocheck || ctx.listGen != list.gen then 0 else ctx.ruleI
  }

  function ListEval(list: RuleList, ctx: Ctx, w: seq<bool>): (r: Result) {
    if list.disabled then Result(OK, ctx, w, []) else RulesFrom(list, ListStart(list, ctx), ctx, w)
  }

  /** wfx_phase_eval, from list i on. */
  function ListsFrom(phase: Phase, i: nat, ctx: Ctx, w: seq<bool>): (r: Result)
    decreases |phase.lists| - i
  {
    if i >= |phase.lists| then Result(OK, ctx, w, [])
    else
      var r := ListEval(phase.lists[i], ctx.(listI := i), w);
      match r.rc
      case OK => var q := ListsFrom(phase, i + 1, r.ctx, r.world); q.(log := r.log + q.log)
      case Skip => r.(rc := OK)
      case Defer => r.(ctx := r.ctx.(phaseGen := phase.gen))
      case _ => r
  }

  function PhaseStart(phase: Phase, ctx: Ctx): nat {
    if ctx.nocheck || phase.gen != ctx.phaseGen then 0 else ctx.listI
  }

  function PhaseEval(phase: Phase, ctx: Ctx, w: seq<bool>): (r: Result) {
    ListsFrom(phase, PhaseStart(phase, ctx), ctx, w)
  }

  // ---------- an entry that nothing suspends ----------

  function From(actions: seq<Action>, i: nat): seq<Action> { if i < |actions| then actions[i..] else [] }

  /** An action does what it does, or waits: deferring is the environment's doing. */
  predicate WellFormed(rule: Rule) {
    && C.WellFormed(rule.cond)
    && (forall k :: 0 <= k < |rule.thenActions| ==> rule.thenActions[k].rc != Defer)
    && (forall k :: 0 <= k < |rule.elseActions| ==> rule.elseActions[k].rc != Defer)
  }

  predicate AllWellFormed(phase: Phase) {
    forall j, i :: 0 <= j < |phase.lists| && 0 <= i < |phase.lists[j].rules| ==> WellFormed(phase.lists[j].rules[i])
  }

  lemma AfterAfter(a: seq<Event>, b: seq<Event>, m: Meaning)
    ensures After(a, After(b, m)) == After(a + b, m)
  {
    assert a + (b + m.log) == (a + b) + m.log;
  }

  /** The actions of a clause are carried out in order up to the first that is not OK, or
      up to one that has to wait; the rest of the clause is then what is left. */
  lemma {:induction false} ActionsRun(rule: Rule, actions: seq<Action>, i: nat, ctx: Ctx, w: seq<bool>)
    requires forall k :: 0 <= k < |actions| ==> actions[k].rc != Defer
    ensures var r := ActionsFrom(rule, actions, i, ctx, w);
      && |r.world| <= |w|
      && (r.rc == Defer ==>
            && |r.world| < |w| && i <= r.ctx.actionI < |actions| && actions[r.ctx.actionI].waits
            && |r.log| == r.ctx.actionI - i
            && r.ctx == ctx.(ruleGen := rule.gen, actionI := r.ctx.actionI)
            && ActionsMeaning(From(actions, i)) == After(r.log, ActionsMeaning(From(actions, r.ctx.actionI))))
      && (r.rc != Defer ==>
            && Meaning(r.rc, r.log) == ActionsMeaning(From(actions, i))
            && r.ctx == if r.rc == OK then ctx.(done := false, isTrue := false) else ctx)
    decreases |actions| - i
  {
    if i < |actions| && !(actions[i].waits && C.Asked(w)) {
      assert actions[i..][1..] == From(actions, i + 1);
      var w' := if actions[i].waits then C.Later(w) else w;
      ActionsRun(rule, actions, i + 1, ctx, w');
      var r := ActionsFrom(rule, actions, i + 1, ctx, w');
      if actions[i].rc == OK && r.rc == Defer {
        AfterAfter([Act(actions[i].id)], r.log, ActionsMeaning(From(actions, r.ctx.actionI)));
      }
    }
  }

  /** With the checks off and no condition suspended, an evaluation carried through is the
      meaning, whatever flags and indices the rules before have left. */
  ghost predicate Off(ctx: Ctx) { ctx.nocheck && ctx.stack == [] }

  lemma RuleUnsuspended(rule: Rule, ctx: Ctx, w: seq<bool>)
    requires WellFormed(rule) && Off(ctx)
    ensures var r := RuleEval(rule, ctx, w);
      r.rc != Defer ==> Meaning(r.rc, r.log) == RuleMeaning(rule) && Off(r.ctx)
  {
    if !rule.disabled {
      var o := C.Eval(rule.cond, [], w);
      C.StackDiscipline(rule.cond, [], w);
      C.Resumption(rule.cond, [], w);
      C.Straight(rule.cond);
      var c := ctx.(stack := o.stack, done := true, isTrue := o.rc == C.True);
      ActionsRun(rule, Clause(rule, c.isTrue), 0, c, o.world);
      assert From(Clause(rule, c.isTrue), 0) == Clause(rule, c.isTrue);
    }
  }

  /** A rule that was updated since it was suspended is evaluated all over: whatever was
      saved, an evaluation carried through is the meaning. */
  lemma UpdatedStartsOver(rule: Rule, ctx: Ctx, w: seq<bool>)
    requires WellFormed(rule) && !ctx.nocheck && ctx.ruleGen != rule.gen
    ensures var r := RuleEval(rule, ctx, w); r.rc != Defer ==> Meaning(r.rc, r.log) == RuleMeaning(rule)
  {
    if !rule.disabled {
      var o := C.Eval(rule.cond, [], w);
      C.StackDiscipline(rule.cond, [], w);
      C.Resumption(rule.cond, [], w);
      C.Straight(rule.cond);
      var c := Checked(rule, ctx).(stack := o.stack, done := true, isTrue := o.rc == C.True);
      ActionsRun(rule, Clause(rule, c.isTrue), 0, c, o.world);
      assert From(Clause(rule, c.isTrue), 0) == Clause(rule, c.isTrue);
    }
  }

  lemma {:induction false} RulesUnsuspended(list: RuleList, i: nat, ctx: Ctx, w: seq<bool>)
    requires i <= |list.rules| && Off(ctx) && forall k :: 0 <= k < |list.rules| ==> WellFormed(list.rules[k])
    ensures var r := RulesFrom(list, i, ctx, w);
      r.rc != Defer ==> Meaning(r.rc, r.log) == RulesMeaning(list.rules[i..]) && Off(r.ctx)
    decreases |list.rules| - i
  {
    if i < |list.rules| {
      assert list.rules[i..][1..] == list.rules[i + 1..];
      RuleUnsuspended(list.rules[i], ctx.(ruleI := i), w);
      var r := RuleEval(list.rules[i], ctx.(ruleI := i), w);
      if r.rc == OK {
        RulesUnsuspended(list, i + 1, r.ctx, r.world);
      }
    }
  }

  lemma {:induction false} ListsUnsuspended(phase: Phase, j: nat, ctx: Ctx, w: seq<bool>)
    requires j <= |phase.lists| && Off(ctx) && AllWellFormed(phase)
    ensures var r := ListsFrom(phase, j, ctx, w);
      r.rc != Defer ==> Meaning(r.rc, r.log) == ListsMeaning(phase.lists[j..])
    decreases |phase.lists| - j
  {
    if j < |phase.lists| {
      var list, c := phase.lists[j], ctx.(listI := j);
      assert phase.lists[j..][1..] == phase.lists[j + 1..];
      assert list.rules[0..] == list.rules;
      RulesUnsuspended(list, 0, c, w);
      NeverSkip(list.rules);
      var r := ListEval(list, c, w);
      if r.rc == OK {
        ListsUnsuspended(phase, j + 1, r.ctx, r.world);
      }
    }
  }

  lemma {:induction false} NeverSkip(rules: seq<Rule>)
    ensures RulesMeaning(rules).rc != Skip
  {
    if rules != [] {
      NeverSkip(rules[1..]);
    }
  }

  /** The context of a request that was not seen before: the rule part is zeroed and the
      checks are off; the rest is whatever was on the C stack. */
  predicate FirstEntry(ctx: Ctx) {
    ctx.nocheck && ctx.ruleI == 0 && ctx.ruleGen == 0 && ctx.stack == [] && !ctx.done && ctx.actionI == 0
  }

  /** A request that is never suspended gets the meaning of the phase: rules and lists of
      any generation, "skip" and actions that could have waited anywhere. */
  lemma Unsuspended(phase: Phase, ctx: Ctx, w: seq<bool>)
    requires AllWellFormed(phase) && FirstEntry(ctx)
    ensures var r := PhaseEval(phase, ctx, w); r.rc != Defer ==> Meaning(r.rc, r.log) == ListsMeaning(phase.lists)
  {
    assert phase.lists[0..] == phase.lists;
    ListsUnsuspended(phase, 0, ctx, w);
  }
}
