/** Whole runs of a phase that is suspended any number of times: what the code then
    carries out, and exactly when that is what the phase means. */
module Suspensions {
  import opened Pipeline
  import C = Conditions

  /** A rule that was never updated. */
  predicate RuleOK(rule: Rule) { rule.gen == 0 && WellFormed(rule) }
  predicate ListOK(list: RuleList) { forall i :: 0 <= i < |list.rules| ==> RuleOK(list.rules[i]) }
  predicate PhaseOK(phase: Phase) { forall j :: 0 <= j < |phase.lists| ==> ListOK(phase.lists[j]) }

  function Resumed(ctx: Ctx): Ctx { ctx.(nocheck := false) }
  function Prefixed(log: seq<Event>, r: Result): Result { r.(log := log + r.log) }

  lemma PrefixedTwice(a: seq<Event>, b: seq<Event>, r: Result)
    ensures Prefixed(a, Prefixed(b, r)) == Prefixed(a + b, r)
  {
    assert a + (b + r.log) == (a + b) + r.log;
  }

  // ---------- entry after entry ----------

  /** One entry of a rule leaves the indices above it alone, and defers by a decision. */
  lemma RuleEntry(rule: Rule, ctx: Ctx, w: seq<bool>)
    requires RuleOK(rule) && ctx.ruleGen == 0
    ensures var r := RuleEval(rule, ctx, w);
      && |r.world| <= |w| && (r.rc == Defer ==> |r.world| < |w|) && r.ctx.ruleGen == 0 && Above(ctx, r.ctx)
  {
    if !rule.disabled {
      C.Progress(rule.cond, ctx.stack, w);
      var o := C.Eval(rule.cond, ctx.stack, w);
      if ctx.nocheck || !ctx.done {
        var c := ctx.(stack := o.stack, done := true, isTrue := o.rc == C.True);
        ActionsRun(rule, Clause(rule, c.isTrue), if c.nocheck then 0 else c.actionI, c, o.world);
      } else {
        ActionsRun(rule, Clause(rule, ctx.isTrue), ctx.actionI, ctx, w);
      }
    }
  }

  ghost predicate Above(ctx: Ctx, ctx': Ctx) {
    && ctx'.nocheck == ctx.nocheck && ctx'.phaseGen == ctx.phaseGen && ctx'.listI == ctx.listI
    && ctx'.listGen == ctx.listGen && ctx'.ruleI == ctx.ruleI
  }

  /** A rule entered until it does not defer.  Between two entries its list and its phase
      have saved their generations. */
  ghost function RuleThrough(rule: Rule, ctx: Ctx, w: seq<bool>, g: int, p: int): (r: Result)
    requires RuleOK(rule) && ctx.ruleGen == 0
    ensures |r.world| <= |w| && r.rc != Defer && r.ctx.ruleGen == 0
    decreases |w|
  {
    RuleEntry(rule, ctx, w);
    var r := RuleEval(rule, ctx, w);
    if r.rc == Defer then Prefixed(r.log, RuleThrough(rule, Back(r.ctx, g, p), r.world, g, p)) else r
  }

  function Back(ctx: Ctx, g: int, p: int): Ctx { ctx.(nocheck := false, listGen := g, phaseGen := p) }

  ghost function RulesThrough(list: RuleList, i: nat, ctx: Ctx, w: seq<bool>, p: int): (r: Result)
    requires ListOK(list) && ctx.ruleGen == 0
    ensures r.rc != Defer && r.ctx.ruleGen == 0
    decreases |list.rules| - i
  {
    if i >= |list.rules| then Result(OK, ctx.(ruleI := 0), w, [])
    else
      var r := RuleThrough(list.rules[i], ctx.(ruleI := i), w, list.gen, p);
      match r.rc
      case OK => Prefixed(r.log, RulesThrough(list, i + 1, r.ctx, r.world, p))
      case Skip => r.(rc := OK)
      case _ => r
  }

  ghost function ListThrough(list: RuleList, ctx: Ctx, w: seq<bool>, p: int): (r: Result)
    requires ListOK(list) && ctx.ruleGen == 0
    ensures r.rc != Defer && r.ctx.ruleGen == 0
  {
    if list.disabled then Result(OK, ctx, w, []) else RulesThrough(list, ListStart(list, ctx), ctx, w, p)
  }

  ghost function ListsThrough(phase: Phase, j: nat, ctx: Ctx, w: seq<bool>): (r: Result)
    requires PhaseOK(phase) && ctx.ruleGen == 0
    ensures r.rc != Defer
    decreases |phase.lists| - j
  {
    if j >= |phase.lists| then Result(OK, ctx, w, [])
    else
      var r := ListThrough(phase.lists[j], ctx.(listI := j), w, phase.gen);
      match r.rc
      case OK => Prefixed(r.log, ListsThrough(phase, j + 1, r.ctx, r.world))
      case Skip => r.(rc := OK)
      case _ => r
  }

  /** An entry of a list that defers leaves the rest of it to the next entry. */
  lemma {:induction false} RulesEntry(list: RuleList, i: nat, ctx: Ctx, w: seq<bool>, p: int)
    requires ListOK(list) && ctx.ruleGen == 0
    ensures var r := RulesFrom(list, i, ctx, w);
      && |r.world| <= |w| && r.ctx.ruleGen == 0 && r.ctx.listI == ctx.listI && r.ctx.nocheck == ctx.nocheck
      && (if r.rc == Defer then
            && |r.world| < |w| && i <= r.ctx.ruleI < |list.rules| && r.ctx.listGen == list.gen
            && RulesThrough(list, i, ctx, w, p) ==
               Prefixed(r.log, RulesThrough(list, r.ctx.ruleI, Back(r.ctx, list.gen, p), r.world, p))
          else RulesThrough(list, i, ctx, w, p) == r)
    decreases |list.rules| - i
  {
    if i < |list.rules| {
      var c := ctx.(ruleI := i);
      RuleEntry(list.rules[i], c, w);
      var r := RuleEval(list.rules[i], c, w);
      if r.rc == OK {
        RulesEntry(list, i + 1, r.ctx, r.world, p);
        var q := RulesFrom(list, i + 1, r.ctx, r.world);
        if q.rc == Defer {
          PrefixedTwice(r.log, q.log, RulesThrough(list, q.ctx.ruleI, Back(q.ctx, list.gen, p), q.world, p));
        }
      } else if r.rc == Defer {
        DeferredRule(list, i, ctx, w, p);
      }
    }
  }

  lemma DeferredRule(list: RuleList, i: nat, ctx: Ctx, w: seq<bool>, p: int)
    requires ListOK(list) && ctx.ruleGen == 0 && i < |list.rules|
    requires RuleEval(list.rules[i], ctx.(ruleI := i), w).rc == Defer
    ensures var r := RuleEval(list.rules[i], ctx.(ruleI := i), w);
      && r.ctx.ruleGen == 0
      && RulesThrough(list, i, ctx, w, p) ==
         Prefixed(r.log, RulesThrough(list, i, Back(r.ctx.(listGen := list.gen), list.gen, p), r.world, p))
  {
    var rule, c := list.rules[i], ctx.(ruleI := i);
    RuleEntry(rule, c, w);
    var r := RuleEval(rule, c, w);
    var b := Back(r.ctx, list.gen, p);
    assert Back(r.ctx.(listGen := list.gen), list.gen, p) == b && b.(ruleI := i) == b;
    RulesPrefix(list, i, ctx, c, w, b, r.world, p, r.log);
  }

  /** What comes before a rule comes before the rest of its list. */
  lemma RulesPrefix(list: RuleList, i: nat, ctx: Ctx, c: Ctx, w: seq<bool>, b: Ctx, v: seq<bool>, p: int,
      log: seq<Event>)
    requires ListOK(list) && ctx.ruleGen == 0 && c == ctx.(ruleI := i) && b.ruleGen == 0 && b == b.(ruleI := i)
    requires i < |list.rules|
    requires RuleThrough(list.rules[i], c, w, list.gen, p) ==
      Prefixed(log, RuleThrough(list.rules[i], b, v, list.gen, p))
    ensures RulesThrough(list, i, ctx, w, p) == Prefixed(log, RulesThrough(list, i, b, v, p))
  {
    var q := RuleThrough(list.rules[i], b, v, list.gen, p);
    if q.rc == OK {
      PrefixedTwice(log, q.log, RulesThrough(list, i + 1, q.ctx, q.world, p));
    }
  }

  lemma ListEntry(list: RuleList, ctx: Ctx, w: seq<bool>, p: int)
    requires ListOK(list) && ctx.ruleGen == 0
    ensures var r := ListEval(list, ctx, w);
      && |r.world| <= |w| && r.ctx.ruleGen == 0 && r.ctx.listI == ctx.listI && r.ctx.nocheck == ctx.nocheck
      && (if r.rc == Defer then
            && |r.world| < |w| && r.ctx.listGen == list.gen
            && ListThrough(list, ctx, w, p) == Prefixed(r.log, ListThrough(list, Back(r.ctx, list.gen, p), r.world, p))
          else ListThrough(list, ctx, w, p) == r)
  {
    if !list.disabled {
      RulesEntry(list, ListStart(list, ctx), ctx, w, p);
    }
  }

  /** So does an entry of a phase. */
  lemma {:induction false} ListsEntry(phase: Phase, j: nat, ctx: Ctx, w: seq<bool>)
    requires PhaseOK(phase) && ctx.ruleGen == 0
    ensures var r := ListsFrom(phase, j, ctx, w);
      && |r.world| <= |w| && r.ctx.ruleGen == 0
      && (if r.rc == Defer then
            && |r.world| < |w| && j <= r.ctx.listI < |phase.lists| && r.ctx.phaseGen == phase.gen
            && ListsThrough(phase, j, ctx, w) ==
               Prefixed(r.log, ListsThrough(phase, r.ctx.listI, Resumed(r.ctx), r.world))
          else ListsThrough(phase, j, ctx, w) == r)
    decreases |phase.lists| - j
  {
    if j < |phase.lists| {
      var list, c := phase.lists[j], ctx.(listI := j);
      ListEntry(list, c, w, phase.gen);
      var r := ListEval(list, c, w);
      if r.rc == OK {
        ListsEntry(phase, j + 1, r.ctx, r.world);
        var q := ListsFrom(phase, j + 1, r.ctx, r.world);
        if q.rc == Defer {
          PrefixedTwice(r.log, q.log, ListsThrough(phase, q.ctx.listI, Resumed(q.ctx), q.world));
        }
      } else if r.rc == Defer {
        var b := Resumed(r.ctx.(phaseGen := phase.gen));
        assert b == Back(r.ctx, list.gen, phase.gen) && b == b.(listI := j);
        ListsPrefix(phase, j, ctx, c, w, b, r.world, r.log);
      }
    }
  }

  /** What comes before a list comes before the rest of its phase. */
  lemma ListsPrefix(phase: Phase, j: nat, ctx: Ctx, c: Ctx, w: seq<bool>, b: Ctx, v: seq<bool>, log: seq<Event>)
    requires PhaseOK(phase) && ctx.ruleGen == 0 && c == ctx.(listI := j) && b.ruleGen == 0 && b == b.(listI := j)
    requires j < |phase.lists|
    requires ListThrough(phase.lists[j], c, w, phase.gen) == Prefixed(log, ListThrough(phase.lists[j], b, v, phase.gen))
    ensures ListsThrough(phase, j, ctx, w) == Prefixed(log, ListsThrough(phase, j, b, v))
  {
    var q := ListThrough(phase.lists[j], b, v, phase.gen);
    if q.rc == OK {
      PrefixedTwice(log, q.log, ListsThrough(phase, j + 1, q.ctx, q.world));
    }
  }

  /** A request: the phase is entered until it does not defer, with the checks on from the
      second entry. */
  ghost function Run(phase: Phase, ctx: Ctx, w: seq<bool>): (r: Result)
    requires PhaseOK(phase) && ctx.ruleGen == 0
    decreases |w|
  {
    ListsEntry(phase, PhaseStart(phase, ctx), ctx, w);
    var r := PhaseEval(phase, ctx, w);
    if r.rc == Defer then Prefixed(r.log, Run(phase, Resumed(r.ctx), r.world)) else r
  }

  lemma {:induction false} RunIsThrough(phase: Phase, ctx: Ctx, w: seq<bool>)
    requires PhaseOK(phase) && ctx.ruleGen == 0
    ensures Run(phase, ctx, w) == ListsThrough(phase, PhaseStart(phase, ctx), ctx, w)
    decreases |w|
  {
    ListsEntry(phase, PhaseStart(phase, ctx), ctx, w);
    var r := PhaseEval(phase, ctx, w);
    if r.rc == Defer {
      RunIsThrough(phase, Resumed(r.ctx), r.world);
    }
  }

  lemma RunStep(phase: Phase, ctx: Ctx, w: seq<bool>, log: seq<Event>)
    requires PhaseOK(phase) && ctx.ruleGen == 0
    ensures var r := PhaseEval(phase, ctx, w);
      && r.ctx.ruleGen == 0
      && if r.rc == Defer then
           && |r.world| < |w| && r.ctx.listI < |phase.lists|
           && Prefixed(log, Run(phase, ctx, w)) == Prefixed(log + r.log, Run(phase, Resumed(r.ctx), r.world))
         else Prefixed(log, Run(phase, ctx, w)) == r.(log := log + r.log)
  {
    ListsEntry(phase, PhaseStart(phase, ctx), ctx, w);
    var r := PhaseEval(phase, ctx, w);
    if r.rc == Defer {
      PrefixedTwice(log, r.log, Run(phase, Resumed(r.ctx), r.world));
    }
  }

  // ---------- one rule, in whatever state the rules before have left ----------

  /** No condition is suspended, and no action was before the checks came on. */
  ghost predicate Quiet(ctx: Ctx) {
    ctx.ruleGen == 0 && ctx.stack == [] && (ctx.nocheck ==> ctx.actionI == 0)
  }

  /** When a rule entered in such a state does what it means to do.  With the checks off,
      a flag left standing by "skip" harms only a condition that has to wait.  With the
      checks on, it makes the code pass over the condition, and take the clause of the
      rule that skipped; and an index other than 0, left by an action that waited, cuts off
      the front of the clause. */
  ghost predicate RuleFair(rule: Rule, ctx: Ctx, w: seq<bool>) {
    !rule.disabled ==>
      var m := C.MeaningOf(rule.cond);
      var actions := Clause(rule, m.rc == C.True);
      if ctx.nocheck then ctx.done ==> C.Eval(rule.cond, [], w).rc != C.Defer
      else if ctx.done then
        && m.leaves == []
        && if ctx.isTrue == (m.rc == C.True) then ctx.actionI == 0 || actions == []
           else actions == [] && |Clause(rule, ctx.isTrue)| <= ctx.actionI
      else m.rc == C.Error || ctx.actionI == 0 || actions == []
  }

  /** What a rule leaves behind. */
  ghost predicate LeftBy(rule: Rule, ctx: Ctx, r: Result) {
    && Quiet(r.ctx) && r.ctx.ruleI == ctx.ruleI
    && (r.rc == OK && !rule.disabled ==> !r.ctx.done)
    && (OneWait(rule) && ctx.actionI == 0 ==> r.ctx.actionI == 0)
  }

  /** Only the first action of a clause waits. */
  predicate OneWait(rule: Rule) {
    && (forall k :: 0 < k < |rule.thenActions| ==> !rule.thenActions[k].waits)
    && (forall k :: 0 < k < |rule.elseActions| ==> !rule.elseActions[k].waits)
  }

  /** With the checks on and the condition done, the clause is carried out from the saved
      index on. */
  lemma {:induction false} DoneRuns(rule: Rule, ctx: Ctx, w: seq<bool>, g: int, p: int)
    requires RuleOK(rule) && !rule.disabled && ctx.ruleGen == 0 && !ctx.nocheck && ctx.done
    ensures var r := RuleThrough(rule, ctx, w, g, p);
      && Meaning(r.rc, r.log) == ActionsMeaning(From(Clause(rule, ctx.isTrue), ctx.actionI))
      && (ctx.stack == [] ==> LeftBy(rule, ctx, r))
    decreases |w|
  {
    var actions := Clause(rule, ctx.isTrue);
    ActionsRun(rule, actions, ctx.actionI, ctx, w);
    RuleEntry(rule, ctx, w);
    var r := RuleEval(rule, ctx, w);
    if r.rc == Defer {
      DoneRuns(rule, Back(r.ctx, g, p), r.world, g, p);
    }
  }

  /** The condition has its verdict, and the clause is carried out. */
  lemma VerdictRuns(rule: Rule, ctx: Ctx, w: seq<bool>, g: int, p: int)
    requires RuleOK(rule) && !rule.disabled && ctx.ruleGen == 0 && (ctx.nocheck || !ctx.done)
    requires ctx.nocheck ==> ctx.actionI == 0
    requires var o := C.Eval(rule.cond, ctx.stack, w); o.stack == [] && (o.rc == C.True || o.rc == C.False)
    ensures var o, r := C.Eval(rule.cond, ctx.stack, w), RuleThrough(rule, ctx, w, g, p);
      && Meaning(r.rc, r.log) ==
         After(Leaves(o.leaves), ActionsMeaning(From(Clause(rule, o.rc == C.True), ctx.actionI)))
      && LeftBy(rule, ctx, r)
  {
    var o := C.Eval(rule.cond, ctx.stack, w);
    var c := ctx.(stack := [], done := true, isTrue := o.rc == C.True);
    var actions := Clause(rule, c.isTrue);
    ActionsRun(rule, actions, c.actionI, c, o.world);
    RuleEntry(rule, ctx, w);
    var r := RuleEval(rule, ctx, w);
    var a := ActionsFrom(rule, actions, c.actionI, c, o.world);
    assert r == a.(log := Leaves(o.leaves) + a.log);
    if r.rc == Defer {
      var b := Back(r.ctx, g, p);
      DoneRuns(rule, b, r.world, g, p);
      AfterAfter(Leaves(o.leaves), a.log, ActionsMeaning(From(actions, b.actionI)));
    }
  }

  lemma LeavesAdd(a: seq<nat>, b: seq<nat>)
    ensures Leaves(a + b) == Leaves(a) + Leaves(b)
  {}

  /** A rule whose flag does not stand: the condition, however often it is suspended, and
      then the clause from the saved index on. */
  lemma {:induction false} ConditionRuns(rule: Rule, ctx: Ctx, w: seq<bool>, g: int, p: int)
    requires RuleOK(rule) && !rule.disabled && ctx.ruleGen == 0 && !ctx.done && C.Entry(rule.cond, ctx.stack)
    requires ctx.nocheck ==> ctx.actionI == 0
    ensures var o, r := C.Eval(rule.cond, ctx.stack, []), RuleThrough(rule, ctx, w, g, p);
      && o.rc != C.Defer
      && Meaning(r.rc, r.log) == After(Leaves(o.leaves), if o.rc == C.Error then Meaning(Error, [])
           else ActionsMeaning(From(Clause(rule, o.rc == C.True), ctx.actionI)))
      && LeftBy(rule, ctx, r)
    decreases |w|
  {
    var o := C.Eval(rule.cond, ctx.stack, w);
    C.StackDiscipline(rule.cond, ctx.stack, w);
    C.StackDiscipline(rule.cond, ctx.stack, []);
    C.Resumption(rule.cond, ctx.stack, w);
    if o.rc == C.Defer {
      RuleEntry(rule, ctx, w);
      var b := Back(ctx.(stack := o.stack), g, p);
      ConditionRuns(rule, b, o.world, g, p);
      var q := C.Eval(rule.cond, o.stack, []);
      LeavesAdd(o.leaves, q.leaves);
      AfterAfter(Leaves(o.leaves), Leaves(q.leaves), if q.rc == C.Error then Meaning(Error, [])
        else ActionsMeaning(From(Clause(rule, q.rc == C.True), ctx.actionI)));
    } else if o.rc != C.Error {
      VerdictRuns(rule, ctx, w, g, p);
    }
  }

  /** A rule entered fairly does what it means, and leaves a state to go on from. */
  lemma FairRule(rule: Rule, ctx: Ctx, w: seq<bool>, g: int, p: int)
    requires RuleOK(rule) && Quiet(ctx) && RuleFair(rule, ctx, w)
    ensures var r := RuleThrough(rule, ctx, w, g, p);
      Meaning(r.rc, r.log) == RuleMeaning(rule) && LeftBy(rule, ctx, r)
  {
    if !rule.disabled {
      var o := C.Eval(rule.cond, [], w);
      C.StackDiscipline(rule.cond, [], w);
      C.Resumption(rule.cond, [], w);
      C.Straight(rule.cond);
      var m := C.MeaningOf(rule.cond);
      var actions := Clause(rule, m.rc == C.True);
      assert From(actions, 0) == actions;
      if !ctx.done {
        ConditionRuns(rule, ctx, w, g, p);
      } else if ctx.nocheck {
        RuleEntry(rule, ctx, w);
        if o.rc != C.Error { VerdictRuns(rule, ctx, w, g, p); }
      } else {
        DoneRuns(rule, ctx, w, g, p);
        if m.rc == C.Error { C.ErrorIsAsked(rule.cond); }
        assert Leaves([]) + ActionsMeaning(actions).log == ActionsMeaning(actions).log;
      }
    }
  }

  // ---------- and when it is not entered fairly ----------

  /** The actions of a rule are told apart by their ids. */
  predicate OwnActions(rule: Rule) {
    var all := rule.thenActions + rule.elseActions;
    forall i, k :: 0 <= i < k < |all| ==> all[i].id != all[k].id
  }

  lemma Starts(actions: seq<Action>)
    ensures var log := ActionsMeaning(actions).log;
      if actions == [] then log == [] else log != [] && log[0] == Act(actions[0].id)
  {}

  /** A clause without its front, or the other clause, is not the clause. */
  lemma ClausesDiffer(rule: Rule, isTrue: bool, verdict: bool, i: nat)
    requires OwnActions(rule)
    requires if isTrue == verdict then i != 0 && Clause(rule, verdict) != []
      else Clause(rule, verdict) != [] || i < |Clause(rule, isTrue)|
    ensures var a, b := ActionsMeaning(From(Clause(rule, isTrue), i)).log, ActionsMeaning(Clause(rule, verdict)).log;
      if b == [] then a != [] && a[0].Act? else b[0].Act? && (a == [] || a[0] != b[0])
  {
    var all, n := rule.thenActions + rule.elseActions, |rule.thenActions|;
    var own, other := Clause(rule, verdict), Clause(rule, isTrue);
    Starts(own);
    Starts(From(other, i));
    if own != [] && i < |other| {
      assert own[0] == all[if verdict then 0 else n];
      assert other[i] == all[if isTrue then i else n + i];
    }
  }

  /** A suspended condition has a leaf still to be asked. */
  lemma {:induction false} PlaceAsks(c: C.Cond, s: seq<int>)
    requires C.WellFormed(c) && C.Place(c, s)
    ensures C.Eval(c, s, []).leaves != []
    decreases c
  {
    match c
    case Wait(_, _, _) =>
    case Any(cs, _) => PlaceAsks(cs[s[0]], s[1..]);
    case All(cs, _) => PlaceAsks(cs[s[0]], s[1..]);
  }

  lemma OnlyActs(actions: seq<Action>)
    ensures var log := ActionsMeaning(actions).log; log == [] || log[0].Act?
  {}

  /** A flag left by "skip", and a condition that waits: it is never asked to the end. */
  lemma FlagCutsCondition(rule: Rule, ctx: Ctx, w: seq<bool>, g: int, p: int)
    requires RuleOK(rule) && !rule.disabled && Quiet(ctx) && ctx.nocheck && ctx.done
    requires C.Eval(rule.cond, [], w).rc == C.Defer
    ensures RuleThrough(rule, ctx, w, g, p).log != RuleMeaning(rule).log
  {
    var o := C.Eval(rule.cond, [], w);
    C.StackDiscipline(rule.cond, [], w);
    C.Resumption(rule.cond, [], w);
    C.Straight(rule.cond);
    PlaceAsks(rule.cond, o.stack);
    RuleEntry(rule, ctx, w);
    var b := Back(ctx.(stack := o.stack), g, p);
    DoneRuns(rule, b, o.world, g, p);
    var acts := From(Clause(rule, ctx.isTrue), 0);
    OnlyActs(acts);
    var q := C.Eval(rule.cond, o.stack, []);
    LeavesAdd(o.leaves, q.leaves);
    var k := |o.leaves|;
    var whole, log := RuleMeaning(rule).log, RuleThrough(rule, ctx, w, g, p).log;
    assert log == Leaves(o.leaves) + ActionsMeaning(acts).log;
    assert whole[k] == Leaf(q.leaves[0]);
    if |log| > k {
      assert log[k] == ActionsMeaning(acts).log[0];
    }
  }

  lemma UnfairRule(rule: Rule, ctx: Ctx, w: seq<bool>, g: int, p: int)
    requires RuleOK(rule) && OwnActions(rule) && Quiet(ctx) && !RuleFair(rule, ctx, w)
    ensures RuleThrough(rule, ctx, w, g, p).log != RuleMeaning(rule).log
  {
    C.Straight(rule.cond);
    var m := C.MeaningOf(rule.cond);
    var v := m.rc == C.True;
    var whole, log := RuleMeaning(rule).log, RuleThrough(rule, ctx, w, g, p).log;
    if ctx.nocheck {
      FlagCutsCondition(rule, ctx, w, g, p);
    } else if !ctx.done {
      ConditionRuns(rule, ctx, w, g, p);
      ClausesDiffer(rule, v, v, ctx.actionI);
      var acts, k := ActionsMeaning(From(Clause(rule, v), ctx.actionI)).log, |m.leaves|;
      Starts(Clause(rule, v));
      assert whole[k] == ActionsMeaning(Clause(rule, v)).log[0];
      if |log| > k { assert log[k] == acts[0]; }
    } else {
      DoneRuns(rule, ctx, w, g, p);
      OnlyActs(From(Clause(rule, ctx.isTrue), ctx.actionI));
      if m.leaves != [] {
        assert whole[0] == Leaf(m.leaves[0]);
      } else {
        if m.rc == C.Error { C.ErrorIsAsked(rule.cond); }
        ClausesDiffer(rule, ctx.isTrue, v, ctx.actionI);
        assert whole == ActionsMeaning(Clause(rule, v)).log;
      }
    }
  }

  lemma RuleIff(rule: Rule, ctx: Ctx, w: seq<bool>, g: int, p: int)
    requires RuleOK(rule) && OwnActions(rule) && Quiet(ctx)
    ensures var r := RuleThrough(rule, ctx, w, g, p);
      Meaning(r.rc, r.log) == RuleMeaning(rule) <==> RuleFair(rule, ctx, w)
  {
    if RuleFair(rule, ctx, w) {
      FairRule(rule, ctx, w, g, p);
    } else {
      UnfairRule(rule, ctx, w, g, p);
    }
  }

  /** "skip" leaves the flag that says the condition is done.  Before the first suspension
      that harms exactly the conditions that have to wait.  After it, the next rule does what
      it means exactly if its condition asks nothing and both clauses come to the same. */
  lemma StaleFlag(rule: Rule, ctx: Ctx, w: seq<bool>, g: int, p: int)
    requires RuleOK(rule) && !rule.disabled && Quiet(ctx) && ctx.done && ctx.actionI == 0
    ensures var m, r := C.MeaningOf(rule.cond), RuleThrough(rule, ctx, w, g, p);
      Meaning(r.rc, r.log) == RuleMeaning(rule) <==>
        if ctx.nocheck then C.Eval(rule.cond, [], w).rc != C.Defer
        else m.leaves == [] && ActionsMeaning(Clause(rule, ctx.isTrue)) == ActionsMeaning(Clause(rule, m.rc == C.True))
  {
    if ctx.nocheck {
      if C.Eval(rule.cond, [], w).rc == C.Defer {
        FlagCutsCondition(rule, ctx, w, g, p);
      } else {
        FairRule(rule, ctx, w, g, p);
      }
    } else {
      var m, acts := C.MeaningOf(rule.cond), ActionsMeaning(Clause(rule, ctx.isTrue));
      C.Straight(rule.cond);
      DoneRuns(rule, ctx, w, g, p);
      assert From(Clause(rule, ctx.isTrue), 0) == Clause(rule, ctx.isTrue);
      OnlyActs(Clause(rule, ctx.isTrue));
      if m.leaves != [] {
        assert RuleMeaning(rule).log[0] == Leaf(m.leaves[0]);
      } else {
        if m.rc == C.Error { C.ErrorIsAsked(rule.cond); }
        var own := ActionsMeaning(Clause(rule, m.rc == C.True));
        assert Leaves([]) + own.log == own.log;
      }
    }
  }

  /** The index of an action that waited is not reset when its clause is done.  A later
      clause is carried out whole exactly when the index is 0, or there is no clause. */
  lemma StaleIndex(rule: Rule, ctx: Ctx, w: seq<bool>, g: int, p: int)
    requires RuleOK(rule) && !rule.disabled && OwnActions(rule) && Quiet(ctx) && !ctx.nocheck && !ctx.done
    ensures var m, r := C.MeaningOf(rule.cond), RuleThrough(rule, ctx, w, g, p);
      Meaning(r.rc, r.log) == RuleMeaning(rule) <==>
        m.rc == C.Error || ctx.actionI == 0 || Clause(rule, m.rc == C.True) == []
  {
    RuleIff(rule, ctx, w, g, p);
  }

  // ---------- whose events ----------

  predicate HasAct(actions: seq<Action>, id: nat) { exists k :: 0 <= k < |actions| && actions[k].id == id }

  predicate Of(rule: Rule, e: Event) {
    match e
    case Leaf(id) => C.HasLeaf(rule.cond, id)
    case Act(id) => HasAct(rule.thenActions, id) || HasAct(rule.elseActions, id)
  }

  ghost predicate OfFrom(rules: seq<Rule>, i: nat, e: Event) { exists k :: i <= k < |rules| && Of(rules[k], e) }
  ghost predicate OfLists(lists: seq<RuleList>, j: nat, e: Event) {
    exists k :: j <= k < |lists| && OfFrom(lists[k].rules, 0, e)
  }

  /** No leaf and no action is in two rules. */
  ghost predicate Apart(rules: seq<Rule>) {
    && (forall i :: 0 <= i < |rules| ==> OwnActions(rules[i]))
    && (forall i, e :: 0 <= i < |rules| && Of(rules[i], e) ==> !OfFrom(rules, i + 1, e))
  }

  ghost predicate Distinct(lists: seq<RuleList>) {
    && (forall j :: 0 <= j < |lists| ==> Apart(lists[j].rules))
    && (forall j, e :: 0 <= j < |lists| && OfFrom(lists[j].rules, 0, e) ==> !OfLists(lists, j + 1, e))
  }

  lemma {:induction false} ActionsOwn(rule: Rule, actions: seq<Action>, i: nat, ctx: Ctx, w: seq<bool>)
    ensures forall e :: e in ActionsFrom(rule, actions, i, ctx, w).log ==> e.Act? && HasAct(actions, e.action)
    decreases |actions| - i
  {
    if i < |actions| {
      ActionsOwn(rule, actions, i + 1, ctx, if actions[i].waits then C.Later(w) else w);
    }
  }

  lemma {:induction false} MeantActionsOwn(actions: seq<Action>)
    ensures forall e :: e in ActionsMeaning(actions).log ==> e.Act? && HasAct(actions, e.action)
  {
    if actions != [] {
      MeantActionsOwn(actions[1..]);
      forall e | e in ActionsMeaning(actions).log ensures e.Act? && HasAct(actions, e.action) {
        if e != Act(actions[0].id) {
          var k :| 0 <= k < |actions[1..]| && actions[1..][k].id == e.action;
          assert actions[k + 1].id == e.action;
        }
      }
    }
  }

  lemma EntryOwn(rule: Rule, ctx: Ctx, w: seq<bool>)
    requires RuleOK(rule) && ctx.ruleGen == 0
    ensures forall e :: e in RuleEval(rule, ctx, w).log ==> Of(rule, e)
  {
    if !rule.disabled {
      C.AsksOwn(rule.cond, ctx.stack, w);
      var o := C.Eval(rule.cond, ctx.stack, w);
      var c := ctx.(stack := o.stack, done := true, isTrue := o.rc == C.True);
      ActionsOwn(rule, Clause(rule, c.isTrue), if c.nocheck then 0 else c.actionI, c, o.world);
      ActionsOwn(rule, Clause(rule, ctx.isTrue), ctx.actionI, ctx, w);
    }
  }

  lemma {:induction false} ThroughOwn(rule: Rule, ctx: Ctx, w: seq<bool>, g: int, p: int)
    requires RuleOK(rule) && ctx.ruleGen == 0
    ensures forall e :: e in RuleThrough(rule, ctx, w, g, p).log ==> Of(rule, e)
    decreases |w|
  {
    EntryOwn(rule, ctx, w);
    RuleEntry(rule, ctx, w);
    var r := RuleEval(rule, ctx, w);
    if r.rc == Defer {
      ThroughOwn(rule, Back(r.ctx, g, p), r.world, g, p);
    }
  }

  lemma MeantOwn(rule: Rule)
    requires WellFormed(rule)
    ensures forall e :: e in RuleMeaning(rule).log ==> Of(rule, e)
  {
    C.Straight(rule.cond);
    C.AsksOwn(rule.cond, [], []);
    MeantActionsOwn(rule.thenActions);
    MeantActionsOwn(rule.elseActions);
  }

  lemma {:induction false} RulesOwn(list: RuleList, i: nat, ctx: Ctx, w: seq<bool>, p: int)
    requires ListOK(list) && ctx.ruleGen == 0
    ensures forall e :: e in RulesThrough(list, i, ctx, w, p).log ==> OfFrom(list.rules, i, e)
    decreases |list.rules| - i
  {
    if i < |list.rules| {
      ThroughOwn(list.rules[i], ctx.(ruleI := i), w, list.gen, p);
      var r := RuleThrough(list.rules[i], ctx.(ruleI := i), w, list.gen, p);
      if r.rc == OK {
        RulesOwn(list, i + 1, r.ctx, r.world, p);
      }
    }
  }

  lemma {:induction false} MeantRulesOwn(list: RuleList, i: nat)
    requires ListOK(list) && i <= |list.rules|
    ensures forall e :: e in RulesMeaning(list.rules[i..]).log ==> OfFrom(list.rules, i, e)
    decreases |list.rules| - i
  {
    if i < |list.rules| {
      MeantOwn(list.rules[i]);
      MeantRulesOwn(list, i + 1);
      assert list.rules[i..][1..] == list.rules[i + 1..];
    }
  }

  lemma {:induction false} ListsOwn(phase: Phase, j: nat, ctx: Ctx, w: seq<bool>)
    requires PhaseOK(phase) && ctx.ruleGen == 0
    ensures forall e :: e in ListsThrough(phase, j, ctx, w).log ==> OfLists(phase.lists, j, e)
    decreases |phase.lists| - j
  {
    if j < |phase.lists| {
      ListOwn(phase.lists[j], ctx.(listI := j), w, phase.gen);
      var r := ListThrough(phase.lists[j], ctx.(listI := j), w, phase.gen);
      if r.rc == OK {
        ListsOwn(phase, j + 1, r.ctx, r.world);
      }
    }
  }

  lemma ListOwn(list: RuleList, ctx: Ctx, w: seq<bool>, p: int)
    requires ListOK(list) && ctx.ruleGen == 0
    ensures forall e :: e in ListThrough(list, ctx, w, p).log ==> OfFrom(list.rules, 0, e)
    ensures forall e :: e in ListMeaning(list).log ==> OfFrom(list.rules, 0, e)
  {
    assert list.rules[0..] == list.rules;
    MeantRulesOwn(list, 0);
    if !list.disabled {
      RulesOwn(list, ListStart(list, ctx), ctx, w, p);
    }
  }

  lemma {:induction false} MeantListsOwn(phase: Phase, j: nat)
    requires PhaseOK(phase) && j <= |phase.lists|
    ensures forall e :: e in ListsMeaning(phase.lists[j..]).log ==> OfLists(phase.lists, j, e)
    decreases |phase.lists| - j
  {
    if j < |phase.lists| {
      var list := phase.lists[j];
      assert list.rules[0..] == list.rules;
      MeantRulesOwn(list, 0);
      MeantListsOwn(phase, j + 1);
      assert phase.lists[j..][1..] == phase.lists[j + 1..];
    }
  }

  /** Two logs of parts that share no event are equal only part by part. */
  lemma {:induction false} SplitLogs(a: seq<Event>, t: seq<Event>, b: seq<Event>, u: seq<Event>)
    requires forall x, y :: (x in a || x in b) && (y in t || y in u) ==> x != y
    requires a + t == b + u
    ensures a == b && t == u
  {
    assert [] + t == t && [] + u == u;
    if a == [] {
      if b != [] { Meets(t, b, u); }
    } else if b == [] {
      Meets(u, a, t);
    } else {
      assert a[0] == (a + t)[0] == (b + u)[0] == b[0];
      assert a[1..] + t == (a + t)[1..] && b[1..] + u == (b + u)[1..];
      assert (forall x :: x in a[1..] ==> x in a) && (forall x :: x in b[1..] ==> x in b);
      SplitLogs(a[1..], t, b[1..], u);
      assert a == [a[0]] + a[1..] && b == [b[0]] + b[1..];
    }
  }

  lemma Meets(t: seq<Event>, b: seq<Event>, u: seq<Event>)
    requires b != [] && t == b + u
    ensures exists x :: x in b && x in t
  {
    assert b[0] in b && b[0] == t[0];
  }

  // ---------- lists ----------

  ghost predicate RulesFair(list: RuleList, i: nat, ctx: Ctx, w: seq<bool>, p: int)
    requires ListOK(list) && ctx.ruleGen == 0
    decreases |list.rules| - i
  {
    i < |list.rules| ==>
      var rule, c := list.rules[i], ctx.(ruleI := i);
      && RuleFair(rule, c, w)
      && var r := RuleThrough(rule, c, w, list.gen, p); r.rc == OK ==> RulesFair(list, i + 1, r.ctx, r.world, p)
  }

  lemma {:induction false} FairRules(list: RuleList, i: nat, ctx: Ctx, w: seq<bool>, p: int)
    requires ListOK(list) && i <= |list.rules| && Quiet(ctx) && RulesFair(list, i, ctx, w, p)
    ensures var r := RulesThrough(list, i, ctx, w, p);
      Meaning(r.rc, r.log) == RulesMeaning(list.rules[i..]) && Quiet(r.ctx)
    decreases |list.rules| - i
  {
    if i < |list.rules| {
      var rule, c := list.rules[i], ctx.(ruleI := i);
      FairRule(rule, c, w, list.gen, p);
      assert list.rules[i..][1..] == list.rules[i + 1..];
      var r := RuleThrough(rule, c, w, list.gen, p);
      if r.rc == OK {
        FairRules(list, i + 1, r.ctx, r.world, p);
      }
    }
  }

  lemma {:induction false} UnfairRules(list: RuleList, i: nat, ctx: Ctx, w: seq<bool>, p: int)
    requires ListOK(list) && Apart(list.rules) && Quiet(ctx) && !RulesFair(list, i, ctx, w, p)
    ensures i < |list.rules| && RulesThrough(list, i, ctx, w, p).log != RulesMeaning(list.rules[i..]).log
    decreases |list.rules| - i
  {
    var rule, c := list.rules[i], ctx.(ruleI := i);
    var r, m := RuleThrough(rule, c, w, list.gen, p), RuleMeaning(rule);
    assert list.rules[i..][1..] == list.rules[i + 1..];
    ThroughOwn(rule, c, w, list.gen, p);
    MeantOwn(rule);
    RulesOwn(list, i + 1, r.ctx, r.world, p);
    MeantRulesOwn(list, i + 1);
    var t := if r.rc == OK then RulesThrough(list, i + 1, r.ctx, r.world, p).log else [];
    var u := if m.rc == OK then RulesMeaning(list.rules[i + 1..]).log else [];
    assert RulesThrough(list, i, ctx, w, p).log == r.log + t;
    assert RulesMeaning(list.rules[i..]).log == m.log + u;
    if RuleFair(rule, c, w) {
      FairRule(rule, c, w, list.gen, p);
      UnfairRules(list, i + 1, r.ctx, r.world, p);
    } else {
      UnfairRule(rule, c, w, list.gen, p);
    }
    if r.log + t == m.log + u {
      SplitLogs(r.log, t, m.log, u);
    }
  }

  /** A rule that asks nothing and does nothing. */
  ghost predicate Idle(rule: Rule) { RuleMeaning(rule).log == [] }

  lemma IdleIsOK(rule: Rule)
    requires WellFormed(rule) && Idle(rule)
    ensures RuleMeaning(rule) == Meaning(OK, [])
  {
    if !rule.disabled {
      C.Straight(rule.cond);
      var m := C.MeaningOf(rule.cond);
      if m.rc == C.Error { C.ErrorIsAsked(rule.cond); }
      Starts(Clause(rule, m.rc == C.True));
    }
  }

  lemma FromLater(rules: seq<Rule>, i: nat, k: nat, e: Event)
    requires i <= k && OfFrom(rules, k, e)
    ensures OfFrom(rules, i, e)
  {
    var x :| k <= x < |rules| && Of(rules[x], e);
    assert i <= x;
  }

  /** Passing over the rules before k harms exactly if one of them is not idle. */
  lemma {:induction false} PassedOver(list: RuleList, i: nat, k: nat, log: seq<Event>)
    requires ListOK(list) && Apart(list.rules) && i <= k <= |list.rules|
    requires forall e :: e in log ==> OfFrom(list.rules, k, e)
    requires log == RulesMeaning(list.rules[i..]).log
    ensures forall x :: i <= x < k ==> Idle(list.rules[x])
    decreases k - i
  {
    if i < k {
      var m := RuleMeaning(list.rules[i]);
      MeantOwn(list.rules[i]);
      assert list.rules[i..][1..] == list.rules[i + 1..];
      if m.log != [] {
        assert log[0] in log && log[0] == m.log[0];
        FromLater(list.rules, i + 1, k, log[0]);
      }
      IdleIsOK(list.rules[i]);
      assert [] + RulesMeaning(list.rules[i + 1..]).log == RulesMeaning(list.rules[i + 1..]).log;
      PassedOver(list, i + 1, k, log);
    }
  }

  lemma {:induction false} IdleFront(list: RuleList, i: nat, k: nat)
    requires ListOK(list) && i <= k <= |list.rules| && forall x :: i <= x < k ==> Idle(list.rules[x])
    ensures RulesMeaning(list.rules[i..]) == RulesMeaning(list.rules[k..])
    decreases k - i
  {
    if i < k {
      IdleIsOK(list.rules[i]);
      assert list.rules[i..][1..] == list.rules[i + 1..];
      IdleFront(list, i + 1, k);
    }
  }

  /** Where the code enters a list, at most its length. */
  function Start(list: RuleList, ctx: Ctx): (k: nat)
    ensures k <= |list.rules|
  {
    if ListStart(list, ctx) < |list.rules| then ListStart(list, ctx) else |list.rules|
  }

  /** When a list does what it means to do: the rules that a standing rule index passes
      over are idle, and each of the others is entered fairly. */
  ghost predicate ListFair(list: RuleList, ctx: Ctx, w: seq<bool>, p: int)
    requires ListOK(list) && ctx.ruleGen == 0
  {
    !list.disabled ==>
      && (forall x :: 0 <= x < Start(list, ctx) ==> Idle(list.rules[x]))
      && RulesFair(list, ListStart(list, ctx), ctx, w, p)
  }

  lemma FairList(list: RuleList, ctx: Ctx, w: seq<bool>, p: int)
    requires ListOK(list) && Quiet(ctx) && ListFair(list, ctx, w, p)
    ensures var r := ListThrough(list, ctx, w, p);
      Meaning(r.rc, r.log) == ListMeaning(list) && Quiet(r.ctx)
  {
    if !list.disabled {
      var k := Start(list, ctx);
      IdleFront(list, 0, k);
      assert list.rules[0..] == list.rules;
      if ListStart(list, ctx) <= |list.rules| {
        FairRules(list, k, ctx, w, p);
      }
    }
  }

  lemma UnfairList(list: RuleList, ctx: Ctx, w: seq<bool>, p: int)
    requires ListOK(list) && Apart(list.rules) && Quiet(ctx) && !ListFair(list, ctx, w, p)
    ensures ListThrough(list, ctx, w, p).log != ListMeaning(list).log
  {
    var k, log := Start(list, ctx), ListThrough(list, ctx, w, p).log;
    assert list.rules[0..] == list.rules;
    RulesOwn(list, ListStart(list, ctx), ctx, w, p);
    if log == ListMeaning(list).log {
      PassedOver(list, 0, k, log);
      IdleFront(list, 0, k);
      UnfairRules(list, ListStart(list, ctx), ctx, w, p);
    }
  }

  /** "skip" leaves the index of its rule.  A list that is entered there, and whose rules
      from there on are entered fairly, does what it means exactly if the rules passed
      over ask nothing and do nothing. */
  lemma StaleRuleIndex(list: RuleList, ctx: Ctx, w: seq<bool>, p: int)
    requires ListOK(list) && Apart(list.rules) && !list.disabled && Quiet(ctx)
    requires RulesFair(list, ListStart(list, ctx), ctx, w, p)
    ensures var r := ListThrough(list, ctx, w, p);
      Meaning(r.rc, r.log) == ListMeaning(list) <==> forall x :: 0 <= x < Start(list, ctx) ==> Idle(list.rules[x])
  {
    if ListFair(list, ctx, w, p) {
      FairList(list, ctx, w, p);
    } else {
      UnfairList(list, ctx, w, p);
    }
  }

  // ---------- phases ----------

  ghost predicate PhaseFair(phase: Phase, j: nat, ctx: Ctx, w: seq<bool>)
    requires PhaseOK(phase) && ctx.ruleGen == 0
    decreases |phase.lists| - j
  {
    j < |phase.lists| ==>
      var list, c := phase.lists[j], ctx.(listI := j);
      && ListFair(list, c, w, phase.gen)
      && var r := ListThrough(list, c, w, phase.gen); r.rc == OK ==> PhaseFair(phase, j + 1, r.ctx, r.world)
  }

  lemma {:induction false} FairLists(phase: Phase, j: nat, ctx: Ctx, w: seq<bool>)
    requires PhaseOK(phase) && j <= |phase.lists| && Quiet(ctx) && PhaseFair(phase, j, ctx, w)
    ensures var r := ListsThrough(phase, j, ctx, w); Meaning(r.rc, r.log) == ListsMeaning(phase.lists[j..])
    decreases |phase.lists| - j
  {
    if j < |phase.lists| {
      var list, c := phase.lists[j], ctx.(listI := j);
      FairList(list, c, w, phase.gen);
      NeverSkip(list.rules);
      assert phase.lists[j..][1..] == phase.lists[j + 1..];
      var r := ListThrough(list, c, w, phase.gen);
      if r.rc == OK {
        FairLists(phase, j + 1, r.ctx, r.world);
      }
    }
  }

  lemma {:induction false} UnfairLists(phase: Phase, j: nat, ctx: Ctx, w: seq<bool>)
    requires PhaseOK(phase) && Distinct(phase.lists) && Quiet(ctx) && !PhaseFair(phase, j, ctx, w)
    ensures j < |phase.lists| && ListsThrough(phase, j, ctx, w).log != ListsMeaning(phase.lists[j..]).log
    decreases |phase.lists| - j
  {
    var list, c := phase.lists[j], ctx.(listI := j);
    var r, m := ListThrough(list, c, w, phase.gen), ListMeaning(list);
    assert phase.lists[j..][1..] == phase.lists[j + 1..];
    ListOwn(list, c, w, phase.gen);
    ListsOwn(phase, j + 1, r.ctx, r.world);
    MeantListsOwn(phase, j + 1);
    var t := if r.rc == OK then ListsThrough(phase, j + 1, r.ctx, r.world).log else [];
    var u := if m.rc == OK then ListsMeaning(phase.lists[j + 1..]).log else [];
    assert ListsThrough(phase, j, ctx, w).log == r.log + t;
    assert ListsMeaning(phase.lists[j..]).log == m.log + u;
    if ListFair(list, c, w, phase.gen) {
      FairList(list, c, w, phase.gen);
      UnfairLists(phase, j + 1, r.ctx, r.world);
    } else {
      UnfairList(list, c, w, phase.gen);
    }
    if r.log + t == m.log + u {
      SplitLogs(r.log, t, m.log, u);
    }
  }

  // ---------- the theorem ----------

  /** A request gets the meaning of a phase, however it is suspended, if every rule on its
      way is entered fairly. */
  lemma FairRun(phase: Phase, ctx: Ctx, w: seq<bool>)
    requires PhaseOK(phase) && FirstEntry(ctx) && PhaseFair(phase, 0, ctx, w)
    ensures var r := Run(phase, ctx, w); Meaning(r.rc, r.log) == ListsMeaning(phase.lists)
  {
    RunIsThrough(phase, ctx, w);
    FairLists(phase, 0, ctx, w);
    assert phase.lists[0..] == phase.lists;
  }

  /** And only then, when leaves and actions can be told apart. */
  lemma RunIff(phase: Phase, ctx: Ctx, w: seq<bool>)
    requires PhaseOK(phase) && Distinct(phase.lists) && FirstEntry(ctx)
    ensures var r := Run(phase, ctx, w);
      Meaning(r.rc, r.log) == ListsMeaning(phase.lists) <==> PhaseFair(phase, 0, ctx, w)
  {
    if PhaseFair(phase, 0, ctx, w) {
      FairRun(phase, ctx, w);
    } else {
      RunIsThrough(phase, ctx, w);
      UnfairLists(phase, 0, ctx, w);
      assert phase.lists[0..] == phase.lists;
    }
  }

  // ---------- where it always holds ----------

  ghost predicate NeverSkips(list: RuleList) {
    forall i :: 0 <= i < |list.rules| ==> RuleMeaning(list.rules[i]).rc != Skip
  }

  /** Waits only in conditions and first actions, and "skip" only in the last list. */
  ghost predicate Plain(phase: Phase) {
    && (forall j, i :: 0 <= j < |phase.lists| && 0 <= i < |phase.lists[j].rules| ==> OneWait(phase.lists[j].rules[i]))
    && (forall j :: 0 <= j < |phase.lists| - 1 ==> NeverSkips(phase.lists[j]))
  }

  /** Nothing is left over from the rules before. */
  ghost predicate Clean(ctx: Ctx) { Quiet(ctx) && !ctx.done && ctx.actionI == 0 }

  lemma {:induction false} PlainRules(list: RuleList, i: nat, ctx: Ctx, w: seq<bool>, p: int)
    requires ListOK(list) && Clean(ctx) && forall k :: 0 <= k < |list.rules| ==> OneWait(list.rules[k])
    ensures RulesFair(list, i, ctx, w, p)
    ensures var r := RulesThrough(list, i, ctx, w, p);
      r.rc == OK && NeverSkips(list) ==> Clean(r.ctx) && r.ctx.ruleI == 0
    decreases |list.rules| - i
  {
    if i < |list.rules| {
      FairRule(list.rules[i], ctx.(ruleI := i), w, list.gen, p);
      var r := RuleThrough(list.rules[i], ctx.(ruleI := i), w, list.gen, p);
      if r.rc == OK {
        PlainRules(list, i + 1, r.ctx, r.world, p);
      }
    }
  }

  lemma {:induction false} PlainLists(phase: Phase, j: nat, ctx: Ctx, w: seq<bool>)
    requires PhaseOK(phase) && Plain(phase) && Clean(ctx) && ctx.ruleI == 0
    ensures PhaseFair(phase, j, ctx, w)
    decreases |phase.lists| - j
  {
    if j < |phase.lists| {
      var list, c := phase.lists[j], ctx.(listI := j);
      PlainRules(list, 0, c, w, phase.gen);
      var r := ListThrough(list, c, w, phase.gen);
      if r.rc == OK {
        if j + 1 < |phase.lists| {
          PlainLists(phase, j + 1, r.ctx, r.world);
        }
      }
    }
  }

  /** Such a phase may be suspended anywhere, any number of times. */
  lemma RunIsMeaning(phase: Phase, ctx: Ctx, w: seq<bool>)
    requires PhaseOK(phase) && Plain(phase) && FirstEntry(ctx)
    ensures var r := Run(phase, ctx, w); Meaning(r.rc, r.log) == ListsMeaning(phase.lists)
  {
    PlainLists(phase, 0, ctx, w);
    FairRun(phase, ctx, w);
  }
}
