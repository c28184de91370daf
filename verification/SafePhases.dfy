/** The phases that may be suspended anywhere: what a phase must look like for every run of
    it to do what the phase means. */
module SafePhases {
  import opened Pipeline
  import opened Suspensions
  import C = Conditions

  /** Where a rule was suspended last, if it was at all. */
  datatype Wait = Never | InCondition | AtAction(k: nat)

  function Verdict(rule: Rule): bool { C.MeaningOf(rule.cond).rc == C.True }

  /** Some leaf on the condition's way can have to wait. */
  predicate MayWait(c: C.Cond) { C.Eval(c, [], [true]).rc == C.Defer }

  /** A rule that is entered fairly can be suspended in its condition, unless the flag makes
      the code pass over it, and at each action on its way that waits. */
  predicate Possible(rule: Rule, ctx: Ctx, wait: Wait) {
    match wait
    case Never => true
    case InCondition => !rule.disabled && (ctx.nocheck || !ctx.done) && MayWait(rule.cond)
    case AtAction(k) =>
      var actions := Clause(rule, Verdict(rule));
      && !rule.disabled && C.MeaningOf(rule.cond).rc != C.Error
      && k < |actions| && k < |ActionsMeaning(actions).log| && actions[k].waits
  }

  /** What it then leaves: the flag stands unless the clause came to its end, and a
      suspension turns the checks on and saves generations and index. */
  function Left(rule: Rule, ctx: Ctx, wait: Wait, g: int, p: int): Ctx {
    var rc := RuleMeaning(rule).rc;
    var c := if rule.disabled then ctx else ctx.(done := rc != OK, isTrue := rc != OK && Verdict(rule));
    match wait
    case Never => c
    case InCondition => Back(c, g, p)
    case AtAction(k) => Back(c, g, p).(actionI := k)
  }

  /** From rule i of list j on, entered with this context: the rule is entered fairly even
      if its first leaf that can wait has to wait, and so are those after it, whatever of
      the possible things it leaves. */
  ghost predicate RulesSafe(phase: Phase, j: nat, i: nat, ctx: Ctx)
    requires j < |phase.lists|
    decreases |phase.lists| - j, 0, |phase.lists[j].rules| - i, 0
  {
    var list := phase.lists[j];
    if i >= |list.rules| then ListsSafe(phase, j + 1, ctx.(ruleI := 0))
    else
      var rule, c := list.rules[i], ctx.(ruleI := i);
      && RuleFair(rule, c, [true])
      && forall wait :: Possible(rule, c, wait) ==> RuleSafe(phase, j, i, Left(rule, c, wait, list.gen, phase.gen))
  }

  /** After rule i. */
  ghost predicate RuleSafe(phase: Phase, j: nat, i: nat, ctx: Ctx)
    requires j < |phase.lists| && i < |phase.lists[j].rules|
    decreases |phase.lists| - j, 0, |phase.lists[j].rules| - i - 1, 1
  {
    match RuleMeaning(phase.lists[j].rules[i]).rc
    case OK => RulesSafe(phase, j, i + 1, ctx)
    case Skip => ListsSafe(phase, j + 1, ctx)
    case _ => true
  }

  /** From list j on: the rules that a standing rule index passes over are idle. */
  ghost predicate ListsSafe(phase: Phase, j: nat, ctx: Ctx)
    decreases |phase.lists| - j, 1
  {
    if j >= |phase.lists| then true
    else
      var list, c := phase.lists[j], ctx.(listI := j);
      if list.disabled then ListsSafe(phase, j + 1, c)
      else
        && (forall x :: 0 <= x < Start(list, c) ==> Idle(list.rules[x]))
        && RulesSafe(phase, j, ListStart(list, c), c)
  }

  /** No decisions are worse than one to wait. */
  lemma FairAlways(rule: Rule, ctx: Ctx, w: seq<bool>)
    requires RuleOK(rule) && RuleFair(rule, ctx, [true])
    ensures RuleFair(rule, ctx, w)
  {
    if !MayWait(rule.cond) {
      Undelayed(rule.cond, w);
    }
  }

  // ---------- decisions that make a condition wait, or not ----------

  /** Without a leaf that can wait, the decisions do not matter. */
  lemma {:induction false} Undelayed(c: C.Cond, w: seq<bool>)
    requires C.WellFormed(c) && !MayWait(c)
    ensures C.Eval(c, [], w) == C.Eval(c, [], [true]).(world := w)
    decreases c, 0
  {
    match c
    case Test(_, _, _) =>
    case Wait(_, _, _) =>
    case Any(cs, _) => ListUndelayed(cs, 0, w, C.True);
    case All(cs, _) => ListUndelayed(cs, 0, w, C.False);
  }

  lemma {:induction false} ListUndelayed(cs: seq<C.Cond>, i: nat, w: seq<bool>, stop: C.CondRc)
    requires (forall k :: 0 <= k < |cs| ==> C.WellFormed(cs[k])) && (stop == C.True || stop == C.False)
    requires C.EvalFrom(cs, i, [], [true], stop).rc != C.Defer
    ensures C.EvalFrom(cs, i, [], w, stop) == C.EvalFrom(cs, i, [], [true], stop).(world := w)
    decreases cs, |cs| - i
  {
    if i < |cs| {
      C.StackDiscipline(cs[i], [], [true]);
      Undelayed(cs[i], w);
      Undelayed(cs[i], [true]);
      var o := C.Eval(cs[i], [], [true]);
      if o.rc != stop && o.rc != C.Error {
        ListUndelayed(cs, i + 1, w, stop);
      }
    }
  }

  /** With one, the first decision can make it wait. */
  lemma {:induction false} Delayed(c: C.Cond, w: seq<bool>)
    requires C.WellFormed(c) && MayWait(c)
    ensures C.Eval(c, [], [true] + w) == C.Eval(c, [], [true]).(world := w)
    decreases c, 0
  {
    match c
    case Test(_, _, _) =>
    case Wait(_, _, _) =>
    case Any(cs, _) => ListDelayed(cs, 0, w, C.True);
    case All(cs, _) => ListDelayed(cs, 0, w, C.False);
  }

  lemma {:induction false} ListDelayed(cs: seq<C.Cond>, i: nat, w: seq<bool>, stop: C.CondRc)
    requires (forall k :: 0 <= k < |cs| ==> C.WellFormed(cs[k])) && (stop == C.True || stop == C.False)
    requires C.EvalFrom(cs, i, [], [true], stop).rc == C.Defer
    ensures C.EvalFrom(cs, i, [], [true] + w, stop) == C.EvalFrom(cs, i, [], [true], stop).(world := w)
    decreases cs, |cs| - i
  {
    if i < |cs| {
      if MayWait(cs[i]) {
        Delayed(cs[i], w);
      } else {
        C.StackDiscipline(cs[i], [], [true]);
        Undelayed(cs[i], [true]);
        Undelayed(cs[i], [true] + w);
        ListDelayed(cs, i + 1, w, stop);
      }
    }
  }

  /** Decisions with which a condition is carried through, w being left. */
  lemma {:induction false} CarriedThrough(c: C.Cond, s: seq<int>, w: seq<bool>) returns (u: seq<bool>)
    requires C.WellFormed(c)
    ensures C.Eval(c, s, u).rc != C.Defer && C.Eval(c, s, u).world == w
    decreases c, 0
  {
    match c
    case Test(_, _, _) => u := w;
    case Wait(_, _, _) => u := if s == [] then [false] + w else w;
    case Any(cs, _) => u := ChildrenThrough(cs, if s == [] then 0 else s[0], if s == [] then s else s[1..], w, C.True);
    case All(cs, _) => u := ChildrenThrough(cs, if s == [] then 0 else s[0], if s == [] then s else s[1..], w, C.False);
  }

  /** The child's outcome does not depend on what it leaves. */
  lemma {:induction false} ChildrenThrough(cs: seq<C.Cond>, i: int, s: seq<int>, w: seq<bool>, stop: C.CondRc)
      returns (u: seq<bool>)
    requires (forall k :: 0 <= k < |cs| ==> C.WellFormed(cs[k])) && (stop == C.True || stop == C.False)
    ensures var o := C.EvalFrom(cs, i, s, u, stop); o.rc != C.Defer && o.world == w
    decreases cs, |cs| - i
  {
    u := w;
    if 0 <= i < |cs| {
      u := CarriedThrough(cs[i], s, w);
      var o := C.Eval(cs[i], s, u);
      if o.rc != stop && o.rc != C.Error {
        var t := ChildrenThrough(cs, i + 1, o.stack, w, stop);
        C.Resumption(cs[i], s, u);
        u := CarriedThrough(cs[i], s, t);
        C.Resumption(cs[i], s, u);
      }
    }
  }

  // ---------- decisions that make an action wait, or not ----------

  /** Actions i to k are carried out when the clause is entered at i. */
  predicate Reached(actions: seq<Action>, i: nat, k: nat) {
    i <= k < |actions| && k - i < |ActionsMeaning(From(actions, i)).log|
  }

  lemma {:induction false} ActionsThrough(rule: Rule, actions: seq<Action>, i: nat, ctx: Ctx, w: seq<bool>)
      returns (u: seq<bool>)
    requires forall k :: 0 <= k < |actions| ==> actions[k].rc != Defer
    ensures var r := ActionsFrom(rule, actions, i, ctx, u); r.rc != Defer && r.world == w
    decreases |actions| - i
  {
    u := w;
    if i < |actions| {
      if actions[i].rc == OK {
        u := ActionsThrough(rule, actions, i + 1, ctx, w);
      }
      if actions[i].waits {
        u := [false] + u;
      }
    }
  }

  lemma {:induction false} ActionsUpTo(rule: Rule, actions: seq<Action>, i: nat, k: nat, ctx: Ctx, w: seq<bool>)
      returns (u: seq<bool>)
    requires (forall k :: 0 <= k < |actions| ==> actions[k].rc != Defer) && Reached(actions, i, k) && actions[k].waits
    ensures var r := ActionsFrom(rule, actions, i, ctx, u);
      r.rc == Defer && r.world == w && r.ctx == ctx.(ruleGen := rule.gen, actionI := k)
    decreases k - i
  {
    if i == k {
      u := [true] + w;
    } else {
      assert actions[i..][1..] == From(actions, i + 1);
      u := ActionsUpTo(rule, actions, i + 1, k, ctx, w);
      if actions[i].waits {
        u := [false] + u;
      }
    }
  }

  // ---------- what a rule can leave ----------

  /** The context after a clause entered at action i, when `base` is what it leaves unsuspended. */
  ghost predicate Ends(actions: seq<Action>, i: nat, base: Ctx, ctx: Ctx, g: int, p: int) {
    ctx == base
    || (ctx == Back(base, g, p).(actionI := ctx.actionI)
        && Reached(actions, i, ctx.actionI) && actions[ctx.actionI].waits)
  }

  function Unflagged(ctx: Ctx, rc: Rc): Ctx { if rc == OK then ctx.(done := false, isTrue := false) else ctx }

  lemma {:induction false} DoneEnds(rule: Rule, ctx: Ctx, w: seq<bool>, g: int, p: int)
    requires RuleOK(rule) && !rule.disabled && ctx.ruleGen == 0 && !ctx.nocheck && ctx.done
    ensures var r := RuleThrough(rule, ctx, w, g, p);
      Ends(Clause(rule, ctx.isTrue), ctx.actionI, Unflagged(ctx, r.rc), r.ctx, g, p)
    decreases |w|
  {
    var actions := Clause(rule, ctx.isTrue);
    ActionsRun(rule, actions, ctx.actionI, ctx, w);
    RuleEntry(rule, ctx, w);
    var r := RuleEval(rule, ctx, w);
    if r.rc == Defer {
      var b := Back(r.ctx, g, p);
      Starts(From(actions, b.actionI));
      DoneRuns(rule, b, r.world, g, p);
      DoneEnds(rule, b, r.world, g, p);
    }
  }

  lemma VerdictEnds(rule: Rule, ctx: Ctx, w: seq<bool>, g: int, p: int)
    requires RuleOK(rule) && !rule.disabled && ctx.ruleGen == 0 && (ctx.nocheck || !ctx.done)
    requires ctx.nocheck ==> ctx.actionI == 0
    requires var o := C.Eval(rule.cond, ctx.stack, w); o.stack == [] && (o.rc == C.True || o.rc == C.False)
    ensures var v, r := C.Eval(rule.cond, ctx.stack, w).rc == C.True, RuleThrough(rule, ctx, w, g, p);
      Ends(Clause(rule, v), ctx.actionI, Unflagged(ctx.(stack := [], done := true, isTrue := v), r.rc), r.ctx, g, p)
  {
    var o := C.Eval(rule.cond, ctx.stack, w);
    var c := ctx.(stack := [], done := true, isTrue := o.rc == C.True);
    var actions := Clause(rule, c.isTrue);
    ActionsRun(rule, actions, c.actionI, c, o.world);
    RuleEntry(rule, ctx, w);
    var r := RuleEval(rule, ctx, w);
    var a := ActionsFrom(rule, actions, c.actionI, c, o.world);
    assert r == a.(log := Leaves(o.leaves) + a.log);
    if r.rc == Defer {
      var b := Back(r.ctx, g, p);
      Starts(From(actions, b.actionI));
      DoneRuns(rule, b, r.world, g, p);
      DoneEnds(rule, b, r.world, g, p);
    }
  }

  lemma {:induction false} ConditionEnds(rule: Rule, ctx: Ctx, w: seq<bool>, g: int, p: int)
    requires RuleOK(rule) && !rule.disabled && ctx.ruleGen == 0 && !ctx.done && C.Entry(rule.cond, ctx.stack)
    requires ctx.nocheck ==> ctx.actionI == 0
    ensures var o, r := C.Eval(rule.cond, ctx.stack, []), RuleThrough(rule, ctx, w, g, p);
      var base := ctx.(stack := [], done := true, isTrue := o.rc == C.True);
      o.rc != C.Error ==>
        || Ends(Clause(rule, o.rc == C.True), ctx.actionI, Unflagged(base, r.rc), r.ctx, g, p)
        || (C.Eval(rule.cond, ctx.stack, w).rc == C.Defer
            && Ends(Clause(rule, o.rc == C.True), ctx.actionI, Unflagged(Back(base, g, p), r.rc), r.ctx, g, p))
    decreases |w|
  {
    var o := C.Eval(rule.cond, ctx.stack, w);
    C.StackDiscipline(rule.cond, ctx.stack, w);
    C.Resumption(rule.cond, ctx.stack, w);
    if o.rc == C.Defer {
      RuleEntry(rule, ctx, w);
      ConditionEnds(rule, Back(ctx.(stack := o.stack), g, p), o.world, g, p);
    } else if o.rc != C.Error {
      VerdictEnds(rule, ctx, w, g, p);
    }
  }

  /** What a rule entered fairly leaves is one of the possible things. */
  lemma LeftIsPossible(rule: Rule, ctx: Ctx, w: seq<bool>, g: int, p: int) returns (wait: Wait)
    requires RuleOK(rule) && Quiet(ctx) && RuleFair(rule, ctx, [true])
    requires RuleMeaning(rule).rc == OK || RuleMeaning(rule).rc == Skip
    ensures Possible(rule, ctx, wait) && RuleThrough(rule, ctx, w, g, p).ctx == Left(rule, ctx, wait, g, p)
  {
    FairAlways(rule, ctx, w);
    FairRule(rule, ctx, w, g, p);
    if rule.disabled {
      wait := Never;
    } else if ctx.done && !ctx.nocheck {
      wait := LeftDone(rule, ctx, w, g, p);
    } else {
      wait := LeftAsked(rule, ctx, w, g, p);
    }
  }

  lemma LeftDone(rule: Rule, ctx: Ctx, w: seq<bool>, g: int, p: int) returns (wait: Wait)
    requires RuleOK(rule) && !rule.disabled && Quiet(ctx) && !ctx.nocheck && ctx.done && RuleFair(rule, ctx, [true])
    requires RuleMeaning(rule).rc == OK || RuleMeaning(rule).rc == Skip
    requires RuleThrough(rule, ctx, w, g, p).rc == RuleMeaning(rule).rc
    ensures Possible(rule, ctx, wait) && RuleThrough(rule, ctx, w, g, p).ctx == Left(rule, ctx, wait, g, p)
  {
    C.Straight(rule.cond);
    DoneEnds(rule, ctx, w, g, p);
    var r := RuleThrough(rule, ctx, w, g, p);
    assert From(Clause(rule, Verdict(rule)), 0) == Clause(rule, Verdict(rule));
    wait := if r.ctx == Left(rule, ctx, Never, g, p) then Never else AtAction(r.ctx.actionI);
  }

  lemma LeftAsked(rule: Rule, ctx: Ctx, w: seq<bool>, g: int, p: int) returns (wait: Wait)
    requires RuleOK(rule) && !rule.disabled && Quiet(ctx) && (ctx.nocheck || !ctx.done) && RuleFair(rule, ctx, w)
    requires RuleMeaning(rule).rc == OK || RuleMeaning(rule).rc == Skip
    requires RuleThrough(rule, ctx, w, g, p).rc == RuleMeaning(rule).rc
    ensures Possible(rule, ctx, wait) && RuleThrough(rule, ctx, w, g, p).ctx == Left(rule, ctx, wait, g, p)
  {
    C.Straight(rule.cond);
    var r, base := RuleThrough(rule, ctx, w, g, p), Left(rule, ctx, Never, g, p);
    var actions := Clause(rule, Verdict(rule));
    AskedEnds(rule, ctx, w, g, p);
    assert From(actions, 0) == actions;
    wait := if r.ctx == base then Never
      else if r.ctx == Back(base, g, p) && MayWait(rule.cond) then InCondition
      else AtAction(r.ctx.actionI);
  }

  lemma AskedEnds(rule: Rule, ctx: Ctx, w: seq<bool>, g: int, p: int)
    requires RuleOK(rule) && !rule.disabled && Quiet(ctx) && (ctx.nocheck || !ctx.done) && RuleFair(rule, ctx, w)
    requires C.MeaningOf(rule.cond).rc == C.True || C.MeaningOf(rule.cond).rc == C.False
    ensures var v, r := Verdict(rule), RuleThrough(rule, ctx, w, g, p);
      var base := Unflagged(ctx.(stack := [], done := true, isTrue := v), r.rc);
      || Ends(Clause(rule, v), ctx.actionI, base, r.ctx, g, p)
      || (MayWait(rule.cond) && Ends(Clause(rule, v), ctx.actionI, Back(base, g, p), r.ctx, g, p))
  {
    C.Straight(rule.cond);
    if ctx.done {
      C.StackDiscipline(rule.cond, [], w);
      C.Resumption(rule.cond, [], w);
      VerdictEnds(rule, ctx, w, g, p);
    } else {
      ConditionEnds(rule, ctx, w, g, p);
      if C.Eval(rule.cond, [], w).rc == C.Defer && !MayWait(rule.cond) {
        Undelayed(rule.cond, w);
      }
    }
  }

  // ---------- and each of them can be ----------

  lemma DoneOn(rule: Rule, ctx: Ctx, w: seq<bool>, g: int, p: int) returns (u: seq<bool>)
    requires RuleOK(rule) && !rule.disabled && ctx.ruleGen == 0 && !ctx.nocheck && ctx.done
    ensures var r := RuleThrough(rule, ctx, u, g, p); r.world == w && r.ctx == Unflagged(ctx, r.rc)
  {
    u := ActionsThrough(rule, Clause(rule, ctx.isTrue), ctx.actionI, ctx, w);
    ActionsRun(rule, Clause(rule, ctx.isTrue), ctx.actionI, ctx, u);
  }

  lemma DoneAt(rule: Rule, ctx: Ctx, k: nat, w: seq<bool>, g: int, p: int) returns (u: seq<bool>)
    requires RuleOK(rule) && !rule.disabled && ctx.ruleGen == 0 && !ctx.nocheck && ctx.done
    requires Reached(Clause(rule, ctx.isTrue), ctx.actionI, k) && Clause(rule, ctx.isTrue)[k].waits
    ensures var r := RuleThrough(rule, ctx, u, g, p);
      r.world == w && r.ctx == Unflagged(Back(ctx, g, p).(actionI := k), r.rc)
  {
    var t := DoneOn(rule, Back(ctx, g, p).(actionI := k), w, g, p);
    u := ActionsUpTo(rule, Clause(rule, ctx.isTrue), ctx.actionI, k, ctx, t);
    RuleEntry(rule, ctx, u);
  }

  /** A condition that may be carried through here, from a fresh or a suspended state. */
  ghost predicate Asking(rule: Rule, ctx: Ctx) {
    && RuleOK(rule) && !rule.disabled && ctx.ruleGen == 0 && (ctx.nocheck || !ctx.done)
    && (ctx.nocheck ==> ctx.actionI == 0) && C.Entry(rule.cond, ctx.stack)
    && var rc := C.Eval(rule.cond, ctx.stack, []).rc; rc == C.True || rc == C.False
  }

  function Flagged(ctx: Ctx, v: bool): Ctx { ctx.(stack := [], done := true, isTrue := v) }

  lemma Carried(rule: Rule, ctx: Ctx, t: seq<bool>) returns (u: seq<bool>)
    requires Asking(rule, ctx)
    ensures C.Eval(rule.cond, ctx.stack, u) == C.Eval(rule.cond, ctx.stack, []).(world := t, stack := [])
  {
    u := CarriedThrough(rule.cond, ctx.stack, t);
    C.StackDiscipline(rule.cond, ctx.stack, u);
    C.Resumption(rule.cond, ctx.stack, u);
  }

  lemma AskedOn(rule: Rule, ctx: Ctx, v: bool, w: seq<bool>, g: int, p: int) returns (u: seq<bool>)
    requires Asking(rule, ctx) && v == (C.Eval(rule.cond, ctx.stack, []).rc == C.True)
    ensures var r := RuleThrough(rule, ctx, u, g, p); r.world == w && r.ctx == Unflagged(Flagged(ctx, v), r.rc)
  {
    var c := Flagged(ctx, v);
    var t := ActionsThrough(rule, Clause(rule, v), c.actionI, c, w);
    u := Carried(rule, ctx, t);
    ActionsRun(rule, Clause(rule, v), c.actionI, c, t);
  }

  lemma AskedAt(rule: Rule, ctx: Ctx, v: bool, k: nat, w: seq<bool>, g: int, p: int) returns (u: seq<bool>)
    requires Asking(rule, ctx) && v == (C.Eval(rule.cond, ctx.stack, []).rc == C.True)
    requires Reached(Clause(rule, v), ctx.actionI, k) && Clause(rule, v)[k].waits
    ensures var r := RuleThrough(rule, ctx, u, g, p);
      r.world == w && r.ctx == Unflagged(Back(Flagged(ctx, v), g, p).(actionI := k), r.rc)
  {
    var c := Flagged(ctx, v);
    var t := DoneOn(rule, Back(c, g, p).(actionI := k), w, g, p);
    var s := ActionsUpTo(rule, Clause(rule, v), c.actionI, k, c, t);
    u := Carried(rule, ctx, s);
    RuleEntry(rule, ctx, u);
  }

  lemma AskedLeaves(rule: Rule, ctx: Ctx, wait: Wait, w: seq<bool>, g: int, p: int) returns (u: seq<bool>)
    requires Quiet(ctx) && Asking(rule, ctx) && RuleFair(rule, ctx, [true]) && Possible(rule, ctx, wait)
    ensures var r := RuleThrough(rule, ctx, u, g, p);
      && r.world == w
      && r.ctx == match wait
         case Never => Unflagged(Flagged(ctx, Verdict(rule)), r.rc)
         case InCondition => Unflagged(Back(Flagged(ctx, Verdict(rule)), g, p), r.rc)
         case AtAction(k) => Unflagged(Back(Flagged(ctx, Verdict(rule)), g, p).(actionI := k), r.rc)
  {
    C.Straight(rule.cond);
    var v := Verdict(rule);
    match wait
    case Never => u := AskedOn(rule, ctx, v, w, g, p);
    case AtAction(k) =>
      assert From(Clause(rule, v), 0) == Clause(rule, v);
      u := AskedAt(rule, ctx, v, k, w, g, p);
    case InCondition =>
      var o := C.Eval(rule.cond, [], [true]);
      C.StackDiscipline(rule.cond, [], [true]);
      C.Resumption(rule.cond, [], [true]);
      var t := AskedOn(rule, Back(ctx.(stack := o.stack), g, p), v, w, g, p);
      Delayed(rule.cond, t);
      u := [true] + t;
      RuleEntry(rule, ctx, u);
  }

  /** Decisions by which a rule entered fairly leaves what is possible, and w for the rules
      that come after it. */
  lemma PossibleIsLeft(rule: Rule, ctx: Ctx, wait: Wait, w: seq<bool>, g: int, p: int) returns (u: seq<bool>)
    requires RuleOK(rule) && Quiet(ctx) && RuleFair(rule, ctx, [true]) && Possible(rule, ctx, wait)
    requires RuleMeaning(rule).rc == OK || RuleMeaning(rule).rc == Skip
    ensures var r := RuleThrough(rule, ctx, u, g, p); r.world == w && r.ctx == Left(rule, ctx, wait, g, p)
  {
    u := w;
    if !rule.disabled {
      C.Straight(rule.cond);
      var v := Verdict(rule);
      assert From(Clause(rule, v), 0) == Clause(rule, v);
      if ctx.done && !ctx.nocheck {
        if wait == Never {
          u := DoneOn(rule, ctx, w, g, p);
        } else {
          u := DoneAt(rule, ctx, wait.k, w, g, p);
        }
      } else {
        u := AskedLeaves(rule, ctx, wait, w, g, p);
      }
      FairAlways(rule, ctx, u);
      FairRule(rule, ctx, u, g, p);
    }
  }

  // ---------- safe means fair for all decisions ----------

  lemma {:induction false} SafeRules(phase: Phase, j: nat, i: nat, ctx: Ctx, w: seq<bool>)
    requires PhaseOK(phase) && j < |phase.lists| && Quiet(ctx) && RulesSafe(phase, j, i, ctx)
    ensures RulesFair(phase.lists[j], i, ctx, w, phase.gen)
    ensures var r := RulesThrough(phase.lists[j], i, ctx, w, phase.gen);
      r.rc == OK ==> Quiet(r.ctx) && ListsSafe(phase, j + 1, r.ctx)
    decreases |phase.lists[j].rules| - i
  {
    var list := phase.lists[j];
    if i < |list.rules| {
      var rule, c := list.rules[i], ctx.(ruleI := i);
      FairAlways(rule, c, w);
      FairRule(rule, c, w, list.gen, phase.gen);
      var r := RuleThrough(rule, c, w, list.gen, phase.gen);
      if r.rc == OK || r.rc == Skip {
        var wait := LeftIsPossible(rule, c, w, list.gen, phase.gen);
        assert RuleSafe(phase, j, i, Left(rule, c, wait, list.gen, phase.gen));
        if r.rc == OK {
          SafeRules(phase, j, i + 1, r.ctx, r.world);
        }
      }
    }
  }

  lemma {:induction false} SafeLists(phase: Phase, j: nat, ctx: Ctx, w: seq<bool>)
    requires PhaseOK(phase) && Quiet(ctx) && ListsSafe(phase, j, ctx)
    ensures PhaseFair(phase, j, ctx, w)
    decreases |phase.lists| - j
  {
    if j < |phase.lists| {
      var list, c := phase.lists[j], ctx.(listI := j);
      if !list.disabled {
        SafeRules(phase, j, ListStart(list, c), c, w);
      }
      var r := ListThrough(list, c, w, phase.gen);
      if r.rc == OK {
        SafeLists(phase, j + 1, r.ctx, r.world);
      }
    }
  }

  /** Decisions that bring the run to a rule entered unfairly. */
  lemma {:induction false} UnsafeRules(phase: Phase, j: nat, i: nat, ctx: Ctx) returns (w: seq<bool>)
    requires PhaseOK(phase) && j < |phase.lists| && Quiet(ctx) && !RulesSafe(phase, j, i, ctx)
    ensures RulesFair(phase.lists[j], i, ctx, w, phase.gen) ==>
      var r := RulesThrough(phase.lists[j], i, ctx, w, phase.gen);
      r.rc == OK && !PhaseFair(phase, j + 1, r.ctx, r.world)
    decreases |phase.lists| - j, 0, |phase.lists[j].rules| - i
  {
    var list := phase.lists[j];
    if i >= |list.rules| {
      w := UnsafeLists(phase, j + 1, ctx.(ruleI := 0));
    } else {
      var rule, c := list.rules[i], ctx.(ruleI := i);
      w := [true];
      if RuleFair(rule, c, [true]) {
        var wait :| Possible(rule, c, wait) && !RuleSafe(phase, j, i, Left(rule, c, wait, list.gen, phase.gen));
        var left := Left(rule, c, wait, list.gen, phase.gen);
        QuietLeft(rule, c, wait, list.gen, phase.gen);
        var t;
        if RuleMeaning(rule).rc == OK {
          t := UnsafeRules(phase, j, i + 1, left);
        } else {
          t := UnsafeLists(phase, j + 1, left);
        }
        w := PossibleIsLeft(rule, c, wait, t, list.gen, phase.gen);
        FairAlways(rule, c, w);
        FairRule(rule, c, w, list.gen, phase.gen);
      }
    }
  }

  lemma QuietLeft(rule: Rule, ctx: Ctx, wait: Wait, g: int, p: int)
    requires Quiet(ctx)
    ensures Quiet(Left(rule, ctx, wait, g, p))
  {}

  lemma {:induction false} UnsafeLists(phase: Phase, j: nat, ctx: Ctx) returns (w: seq<bool>)
    requires PhaseOK(phase) && Quiet(ctx) && !ListsSafe(phase, j, ctx)
    ensures !PhaseFair(phase, j, ctx, w)
    decreases |phase.lists| - j, 1
  {
    var list, c := phase.lists[j], ctx.(listI := j);
    w := [];
    if list.disabled {
      w := UnsafeLists(phase, j + 1, c);
    } else if forall x :: 0 <= x < Start(list, c) ==> Idle(list.rules[x]) {
      w := UnsafeRules(phase, j, ListStart(list, c), c);
    }
  }

  /** A safe phase does what it means in every run, however the run is suspended. */
  lemma SafeRun(phase: Phase, ctx: Ctx, w: seq<bool>)
    requires PhaseOK(phase) && FirstEntry(ctx) && ListsSafe(phase, 0, ctx)
    ensures var r := Run(phase, ctx, w); Meaning(r.rc, r.log) == ListsMeaning(phase.lists)
  {
    SafeLists(phase, 0, ctx, w);
    FairRun(phase, ctx, w);
  }

  /** And only a safe one does, when leaves and actions can be told apart. */
  lemma AlwaysIff(phase: Phase, ctx: Ctx)
    requires PhaseOK(phase) && Distinct(phase.lists) && FirstEntry(ctx)
    ensures ListsSafe(phase, 0, ctx) <==> forall w ::
      Meaning(Run(phase, ctx, w).rc, Run(phase, ctx, w).log) == ListsMeaning(phase.lists)
  {
    if ListsSafe(phase, 0, ctx) {
      forall w ensures Meaning(Run(phase, ctx, w).rc, Run(phase, ctx, w).log) == ListsMeaning(phase.lists) {
        SafeRun(phase, ctx, w);
      }
    } else {
      var w := UnsafeLists(phase, 0, ctx);
      RunIff(phase, ctx, w);
    }
  }
}
