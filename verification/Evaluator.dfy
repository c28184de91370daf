/** The evaluators of rules, lists and phases, on the request's saved context. */
module Evaluator {
  import opened Pipeline
  import opened Suspensions
  import C = Conditions
  import CS = ConditionStack

  class RequestCtx {
    var nocheck: bool
    var phaseGen: int
    var listI: nat
    var listGen: int
    var ruleI: nat
    var ruleGen: int
    const stack: CS.Stack
    var done: bool
    var isTrue: bool
    var actionI: nat

    ghost predicate Valid()
      reads this, stack, stack.els
    {
      stack.Valid()
    }

    ghost function View(): (c: Ctx)
      reads this, stack, stack.els
    {
      Ctx(nocheck, phaseGen, listI, listGen, ruleI, ruleGen, stack.Contents(), done, isTrue, actionI)
    }

    constructor ()
      ensures Valid() && FirstEntry(View()) && fresh(stack)
    {
      nocheck, ruleI, ruleGen, done, isTrue, actionI := true, 0, 0, false, false, 0;
      phaseGen, listI, listGen := *, *, *;
      stack := new CS.Stack();
    }

    /** wfx_rule_actions_eval. */
    method EvalActions(rule: Rule, world: C.World) returns (rc: Rc, ghost log: seq<Event>)
      requires Valid()
      modifies this, world
      ensures Valid() && Result(rc, View(), world.decisions, log) ==
        ActionsEval(rule, old(View()), old(world.decisions))
    {
      var actions := if isTrue then rule.thenActions else rule.elseActions;
      var i := if nocheck then 0 else actionI;
      log := [];
      ghost var ctx := View();
      ghost var whole := ActionsFrom(rule, actions, i, ctx, world.decisions);
      while i < |actions|
        invariant Valid() && View() == ctx
        invariant whole == Prefixed(log, ActionsFrom(rule, actions, i, ctx, world.decisions))
      {
        var j := i + 1;
        rc, log := EvalAction(rule, actions, i, j, world, log);
        if rc != OK {
          return;
        }
        i := j;
      }
      done, isTrue := false, false;
      rc := OK;
    }

    /** One action: it may have to wait, and its index is then saved. */
    method EvalAction(rule: Rule, actions: seq<Action>, i: nat, j: nat, world: C.World, ghost before: seq<Event>)
      returns (rc: Rc, ghost log: seq<Event>)
      requires Valid() && i < |actions| && j == i + 1
      modifies this`ruleGen, this`actionI, world
      ensures Valid() && Prefixed(before, ActionsFrom(rule, actions, i, old(View()), old(world.decisions))) ==
        if rc == OK then Prefixed(log, ActionsFrom(rule, actions, j, View(), world.decisions))
        else Result(rc, View(), world.decisions, log)
      ensures rc == OK ==> View() == old(View())
    {
      var a := actions[i];
      ActionStep(rule, actions, i, j, View(), world.decisions, before);
      if a.waits {
        var wait := world.Ask();
        if wait {
          ruleGen := rule.gen;
          actionI := i;
          return Defer, before;
        }
      }
      return a.rc, before + [Act(a.id)];
    }

    /** wfx_rule_eval. */
    method EvalRule(rule: Rule, world: C.World) returns (rc: Rc, ghost log: seq<Event>)
      requires Valid()
      modifies this, stack, world
      ensures Valid() && Result(rc, View(), world.decisions, log) == RuleEval(rule, old(View()), old(world.decisions))
    {
      if rule.disabled {
        return OK, [];
      }
      CheckGen(rule);
      if nocheck || !done {
        rc, log := EvalFresh(rule, world);
      } else {
        rc, log := EvalActions(rule, world);
      }
    }

    /** A rule that was changed since is restarted. */
    method CheckGen(rule: Rule)
      requires Valid()
      modifies this, stack
      ensures Valid() && View() == Checked(rule, old(View()))
    {
      if !nocheck && ruleGen != rule.gen {
        stack.Clear();
        ruleI, ruleGen, done, isTrue, actionI := 0, 0, false, false, 0;
      }
    }

    /** The condition, and on a verdict the actions. */
    method EvalFresh(rule: Rule, world: C.World) returns (rc: Rc, ghost log: seq<Event>)
      requires Valid()
      modifies this, stack, world
      ensures Valid() && Result(rc, View(), world.decisions, log) == Fresh(rule, old(View()), old(world.decisions))
    {
      ghost var leaves;
      var c;
      ghost var ctx := View();
      ghost var o := C.Eval(rule.cond, ctx.stack, world.decisions);
      c, leaves := C.EvalCondition(rule.cond, stack, world);
      log := Leaves(leaves);
      assert View() == ctx.(stack := o.stack) && C.Outcome(c, stack.Contents(), world.decisions, leaves) == o;
      match c {
        case Error => rc := Error;
        case Defer => rc := Defer;
        case _ =>
          ghost var more;
          rc, more := EvalClause(rule, c == C.True, world);
          log := log + more;
      }
    }

    /** The condition is done. */
    method EvalClause(rule: Rule, verdict: bool, world: C.World) returns (rc: Rc, ghost log: seq<Event>)
      requires Valid()
      modifies this, world
      ensures Valid() && Result(rc, View(), world.decisions, log) ==
        ActionsEval(rule, old(View()).(done := true, isTrue := verdict), old(world.decisions))
    {
      done := true;
      isTrue := verdict;
      rc, log := EvalActions(rule, world);
    }

    /** Rule i of a list.  When it defers, the list's generation is saved. */
    method EvalRuleAt(list: RuleList, i: nat, world: C.World) returns (rc: Rc, ghost log: seq<Event>)
      requires Valid() && i < |list.rules|
      modifies this, stack, world
      ensures Valid() && Result(rc, View(), world.decisions, log) == RuleAt(list, i, old(View()), old(world.decisions))
    {
      ruleI := i;
      rc, log := EvalRule(list.rules[i], world);
      if rc == Defer {
        listGen := list.gen;
      }
    }

    /** wfx_list_eval. */
    method EvalRules(list: RuleList, world: C.World) returns (rc: Rc, ghost log: seq<Event>)
      requires Valid()
      modifies this, stack, world
      ensures Valid() && Result(rc, View(), world.decisions, log) == ListEval(list, old(View()), old(world.decisions))
    {
      log := [];
      if list.disabled {
        return OK, log;
      }
      var i := if nocheck || listGen != list.gen then 0 else ruleI;
      ghost var whole := RulesFrom(list, i, View(), world.decisions);
      while i < |list.rules|
        invariant Valid()
        invariant whole == Prefixed(log, RulesFrom(list, i, View(), world.decisions))
      {
        var j := i + 1;
        RuleLoop(list, i, j, View(), world.decisions, log);
        ghost var more;
        rc, more := EvalRuleAt(list, i, world);
        log := log + more;
        if rc == Skip {
          return OK, log;
        } else if rc != OK {
          return rc, log;
        }
        i := j;
      }
      ruleI := 0;
      rc := OK;
    }

    /** List i of a phase.  When it defers, the phase's generation is saved. */
    method EvalListAt(phase: Phase, i: nat, world: C.World) returns (rc: Rc, ghost log: seq<Event>)
      requires Valid() && i < |phase.lists|
      modifies this, stack, world
      ensures Valid() && Result(rc, View(), world.decisions, log) == ListAt(phase, i, old(View()), old(world.decisions))
    {
      listI := i;
      rc, log := EvalRules(phase.lists[i], world);
      if rc == Defer {
        phaseGen := phase.gen;
      }
    }

    /** wfx_phase_eval.  The code asserts that the list to resume at exists. */
    method EvalPhase(phase: Phase, world: C.World) returns (rc: Rc, ghost log: seq<Event>)
      requires Valid()
      requires !nocheck && phaseGen == phase.gen ==> listI < |phase.lists|
      modifies this, stack, world
      ensures Valid() && Result(rc, View(), world.decisions, log) == PhaseEval(phase, old(View()), old(world.decisions))
    {
      log := [];
      var i := if nocheck || phase.gen != phaseGen then 0 else listI;
      ghost var whole := ListsFrom(phase, i, View(), world.decisions);
      while i < |phase.lists|
        invariant Valid()
        invariant whole == Prefixed(log, ListsFrom(phase, i, View(), world.decisions))
      {
        var j := i + 1;
        ListLoop(phase, i, j, View(), world.decisions, log);
        ghost var more;
        rc, more := EvalListAt(phase, i, world);
        log := log + more;
        if rc == Skip {
          return OK, log;
        } else if rc != OK {
          return rc, log;
        }
        i := j;
      }
      rc := OK;
    }

    /** One entry of a request; a deferral turns the checks on for the next. */
    method Enter(phase: Phase, world: C.World) returns (rc: Rc, ghost log: seq<Event>)
      requires Valid()
      requires !nocheck && phaseGen == phase.gen ==> listI < |phase.lists|
      modifies this, stack, world
      ensures Valid()
      ensures var r := PhaseEval(phase, old(View()), old(world.decisions));
        && rc == r.rc && log == r.log && world.decisions == r.world
        && View() == if rc == Defer then Resumed(r.ctx) else r.ctx
    {
      rc, log := EvalPhase(phase, world);
      if rc == Defer {
        nocheck := false;
      }
    }

    /** A request: entered first with the checks off, then again each time what it waited
        for has come.  It gets the meaning of the phase if every rule is entered fairly, and
        only then if leaves and actions can be told apart. */
    method Serve(phase: Phase, world: C.World) returns (rc: Rc, ghost log: seq<Event>)
      requires Valid() && PhaseOK(phase) && FirstEntry(View())
      modifies this, stack, world
      ensures Valid() && Result(rc, View(), world.decisions, log) == Run(phase, old(View()), old(world.decisions))
      ensures PhaseFair(phase, 0, old(View()), old(world.decisions)) ==> Meaning(rc, log) == ListsMeaning(phase.lists)
      ensures Distinct(phase.lists) && Meaning(rc, log) == ListsMeaning(phase.lists) ==>
        PhaseFair(phase, 0, old(View()), old(world.decisions))
    {
      ghost var ctx, w := View(), world.decisions;
      RunIsFair(phase, ctx, w);
      log := [];
      while true
        invariant Valid() && ruleGen == 0
        invariant !nocheck && phaseGen == phase.gen ==> listI < |phase.lists|
        invariant Run(phase, ctx, w) == Prefixed(log, Run(phase, View(), world.decisions))
        decreases |world.decisions|
      {
        rc, log := EnterOnce(phase, world, log);
        if rc != Defer {
          return;
        }
      }
    }

    /** One of the entries of a request: it ends the run, or leaves the rest of it. */
    method EnterOnce(phase: Phase, world: C.World, ghost before: seq<Event>) returns (rc: Rc, ghost log: seq<Event>)
      requires Valid() && PhaseOK(phase) && ruleGen == 0
      requires !nocheck && phaseGen == phase.gen ==> listI < |phase.lists|
      modifies this, stack, world
      ensures Valid() && ruleGen == 0
      ensures Prefixed(before, Run(phase, old(View()), old(world.decisions))) ==
        if rc == Defer then Prefixed(log, Run(phase, View(), world.decisions))
        else Result(rc, View(), world.decisions, log)
      ensures rc == Defer ==> |world.decisions| < |old(world.decisions)| && listI < |phase.lists|
    {
      RunStep(phase, View(), world.decisions, before);
      rc, log := Enter(phase, world);
      log := before + log;
    }
  }

  lemma RunIsFair(phase: Phase, ctx: Ctx, w: seq<bool>)
    requires PhaseOK(phase) && FirstEntry(ctx)
    ensures var r := Run(phase, ctx, w);
      && (PhaseFair(phase, 0, ctx, w) ==> Meaning(r.rc, r.log) == ListsMeaning(phase.lists))
      && (Distinct(phase.lists) && Meaning(r.rc, r.log) == ListsMeaning(phase.lists) ==> PhaseFair(phase, 0, ctx, w))
  {
    if PhaseFair(phase, 0, ctx, w) {
      FairRun(phase, ctx, w);
    } else if Distinct(phase.lists) {
      RunIff(phase, ctx, w);
    }
  }

  function RuleAt(list: RuleList, i: nat, ctx: Ctx, w: seq<bool>): (r: Result)
    requires i < |list.rules|
  {
    var r := RuleEval(list.rules[i], ctx.(ruleI := i), w);
    if r.rc == Defer then r.(ctx := r.ctx.(listGen := list.gen)) else r
  }

  function ListAt(phase: Phase, i: nat, ctx: Ctx, w: seq<bool>): (r: Result)
    requires i < |phase.lists|
  {
    var r := ListEval(phase.lists[i], ctx.(listI := i), w);
    if r.rc == Defer then r.(ctx := r.ctx.(phaseGen := phase.gen)) else r
  }

  lemma ActionStep(rule: Rule, actions: seq<Action>, i: nat, j: nat, ctx: Ctx, w: seq<bool>, log: seq<Event>)
    requires i < |actions| && j == i + 1
    ensures var a := actions[i];
      var w' := if a.waits then C.Later(w) else w;
      Prefixed(log, ActionsFrom(rule, actions, i, ctx, w)) ==
        if a.waits && C.Asked(w) then Result(Defer, ctx.(ruleGen := rule.gen, actionI := i), w', log)
        else if a.rc != OK then Result(a.rc, ctx, w', log + [Act(a.id)])
        else Prefixed(log + [Act(a.id)], ActionsFrom(rule, actions, j, ctx, w'))
  {
    var a := actions[i];
    var r := ActionsFrom(rule, actions, i + 1, ctx, if a.waits then C.Later(w) else w);
    assert log + ([Act(a.id)] + r.log) == (log + [Act(a.id)]) + r.log;
  }

  lemma RuleLoop(list: RuleList, i: nat, j: nat, ctx: Ctx, w: seq<bool>, log: seq<Event>)
    requires i < |list.rules| && j == i + 1
    ensures var r := RuleAt(list, i, ctx, w);
      Prefixed(log, RulesFrom(list, i, ctx, w)) ==
        if r.rc == OK then Prefixed(log + r.log, RulesFrom(list, j, r.ctx, r.world))
        else Result(if r.rc == Skip then OK else r.rc, r.ctx, r.world, log + r.log)
  {
    var r := RuleEval(list.rules[i], ctx.(ruleI := i), w);
    var q := RulesFrom(list, i + 1, r.ctx, r.world);
    assert log + (r.log + q.log) == (log + r.log) + q.log;
  }

  lemma ListLoop(phase: Phase, i: nat, j: nat, ctx: Ctx, w: seq<bool>, log: seq<Event>)
    requires i < |phase.lists| && j == i + 1
    ensures var r := ListAt(phase, i, ctx, w);
      Prefixed(log, ListsFrom(phase, i, ctx, w)) ==
        if r.rc == OK then Prefixed(log + r.log, ListsFrom(phase, j, r.ctx, r.world))
        else Result(if r.rc == Skip then OK else r.rc, r.ctx, r.world, log + r.log)
  {
    var r := ListEval(phase.lists[i], ctx.(listI := i), w);
    var q := ListsFrom(phase, i + 1, r.ctx, r.world);
    assert log + (r.log + q.log) == (log + r.log) + q.log;
  }
}
