/** Conditions that can be suspended anywhere and are re-entered from the top. */
module Conditions {
  import opened ConditionStack

  datatype CondRc = False | True | Defer | Error

  /** A leaf that answers at once (true, false, match), a leaf that may have to wait for
      its answer (.delay, the limiter checks), or a list: `any` stops on the first true,
      `all` on the first false. */
  datatype Cond =
    | Test(id: nat, answer: CondRc, negate: bool)
    | Wait(id: nat, answer: CondRc, negate: bool)
    | Any(children: seq<Cond>, negate: bool)
    | All(children: seq<Cond>, negate: bool)

  /** No leaf answers "defer": deferring is the environment's doing. */
  predicate WellFormed(c: Cond) {
    match c
    case Test(_, a, _) => a != Defer
    case Wait(_, a, _) => a != Defer
    case Any(cs, _) => forall k :: 0 <= k < |cs| ==> WellFormed(cs[k])
    case All(cs, _) => forall k :: 0 <= k < |cs| ==> WellFormed(cs[k])
  }

  function Negate(negate: bool, rc: CondRc): CondRc {
    match rc
    case False => if negate then True else False
    case True => if negate then False else True
    case Defer => rc
    case Error => rc
  }

  // ---------- what a condition means ----------

  /** The short-circuit verdict, and the leaves that had to answer, in order. */
  datatype Meaning = Meaning(rc: CondRc, leaves: seq<nat>)

  function MeaningOf(c: Cond): (m: Meaning)
    decreases c, 0
  {
    match c
    case Test(id, a, n) => Meaning(Negate(n, a), [id])
    case Wait(id, a, n) => Meaning(Negate(n, a), [id])
    case Any(cs, n) => var m := ListMeaning(cs, True); Meaning(Negate(n, m.rc), m.leaves)
    case All(cs, n) => var m := ListMeaning(cs, False); Meaning(Negate(n, m.rc), m.leaves)
  }

  function ListMeaning(cs: seq<Cond>, stop: CondRc): (m: Meaning)
    decreases cs
  {
    if cs == [] then Meaning(if stop == False then True else False, [])
    else
      var m := MeaningOf(cs[0]);
      if m.rc == stop || m.rc == Defer || m.rc == Error then m
      else var r := ListMeaning(cs[1..], stop); Meaning(r.rc, m.leaves + r.leaves)
  }

  // ---------- the meaning, read as logic ----------

  /** Every leaf answers true or false. */
  predicate Answers(c: Cond) {
    match c
    case Test(_, a, _) => a == True || a == False
    case Wait(_, a, _) => a == True || a == False
    case Any(cs, _) => forall k :: 0 <= k < |cs| ==> Answers(cs[k])
    case All(cs, _) => forall k :: 0 <= k < |cs| ==> Answers(cs[k])
  }

  /** A condition as a formula: a negated one holds exactly if it would not hold without. */
  predicate Holds(c: Cond) {
    match c
    case Test(_, a, n) => (a == True) != n
    case Wait(_, a, n) => (a == True) != n
    case Any(cs, n) => (exists k :: 0 <= k < |cs| && Holds(cs[k])) != n
    case All(cs, n) => (forall k :: 0 <= k < |cs| ==> Holds(cs[k])) != n
  }

  /** The verdict is the truth of the formula. */
  lemma {:induction false} MeaningHolds(c: Cond)
    requires Answers(c)
    ensures MeaningOf(c).rc == if Holds(c) then True else False
    decreases c, 0
  {
    match c
    case Test(_, _, _) =>
    case Wait(_, _, _) =>
    case Any(cs, _) => AnyHolds(cs, 0); assert cs[0..] == cs;
    case All(cs, _) => AllHold(cs, 0); assert cs[0..] == cs;
  }

  lemma {:induction false} AnyHolds(cs: seq<Cond>, i: nat)
    requires i <= |cs| && forall k :: 0 <= k < |cs| ==> Answers(cs[k])
    ensures ListMeaning(cs[i..], True).rc == if exists k :: i <= k < |cs| && Holds(cs[k]) then True else False
    decreases cs, |cs| - i
  {
    if i < |cs| {
      MeaningHolds(cs[i]);
      AnyHolds(cs, i + 1);
      assert cs[i..][0] == cs[i] && cs[i..][1..] == cs[i + 1..];
    }
  }

  lemma {:induction false} AllHold(cs: seq<Cond>, i: nat)
    requires i <= |cs| && forall k :: 0 <= k < |cs| ==> Answers(cs[k])
    ensures ListMeaning(cs[i..], False).rc == if forall k :: i <= k < |cs| ==> Holds(cs[k]) then True else False
    decreases cs, |cs| - i
  {
    if i < |cs| {
      MeaningHolds(cs[i]);
      AllHold(cs, i + 1);
      assert cs[i..][0] == cs[i] && cs[i..][1..] == cs[i + 1..];
    }
  }

  /** The same condition, negated if it was not. */
  function Opposite(c: Cond): Cond {
    match c
    case Test(id, a, n) => Test(id, a, !n)
    case Wait(id, a, n) => Wait(id, a, !n)
    case Any(cs, n) => Any(cs, !n)
    case All(cs, n) => All(cs, !n)
  }

  /** Negation asks the same leaves, turns the verdict round, and leaves a failure a failure. */
  lemma OppositeFlips(c: Cond)
    ensures var m, o := MeaningOf(c), MeaningOf(Opposite(c));
      && o.leaves == m.leaves && (o.rc == Error <==> m.rc == Error)
      && (o.rc == True <==> m.rc == False) && (o.rc == False <==> m.rc == True)
    ensures (c.Test? || c.Wait?) && !c.negate ==> MeaningOf(c) == Meaning(c.answer, [c.id])
  {
  }

  /** The leaves that the first k conditions need. */
  function LeavesOf(cs: seq<Cond>, k: nat): (leaves: seq<nat>)
    requires k <= |cs|
  {
    if k == 0 then [] else LeavesOf(cs, k - 1) + MeaningOf(cs[k - 1]).leaves
  }

  /** Child k settles a list: it gives the verdict that stops it, or fails. */
  predicate Settles(c: Cond, stop: CondRc) { MeaningOf(c).rc == stop || MeaningOf(c).rc == Error }

  /** Children are asked up to the first that settles the list, and no further; a failure
      there is the failure of the list. */
  lemma {:induction false} StopsAtFirst(cs: seq<Cond>, stop: CondRc, k: nat, i: nat)
    requires i <= k <= |cs| && (stop == True || stop == False) && forall j :: 0 <= j < |cs| ==> WellFormed(cs[j])
    requires (forall j :: 0 <= j < k ==> !Settles(cs[j], stop)) && (k < |cs| ==> Settles(cs[k], stop))
    ensures var m := ListMeaning(cs[i..], stop);
      && LeavesOf(cs, i) + m.leaves == LeavesOf(cs, if k < |cs| then k + 1 else k)
      && m.rc == if k < |cs| then MeaningOf(cs[k]).rc else if stop == True then False else True
    decreases k - i
  {
    if i < |cs| {
      NeverDefers(cs[i]);
      assert cs[i..][0] == cs[i] && cs[i..][1..] == cs[i + 1..];
      if i < k {
        StopsAtFirst(cs, stop, k, i + 1);
        Grouped(LeavesOf(cs, i), MeaningOf(cs[i]).leaves, ListMeaning(cs[i + 1..], stop).leaves);
      }
    }
  }

  lemma Grouped(a: seq<nat>, b: seq<nat>, c: seq<nat>)
    ensures (a + b) + c == a + (b + c)
  {
  }

  lemma {:induction false} NeverDefers(c: Cond)
    requires WellFormed(c)
    ensures MeaningOf(c).rc != Defer
    decreases c, 0
  {
    match c
    case Test(_, _, _) =>
    case Wait(_, _, _) =>
    case Any(cs, _) => ListNeverDefers(cs, True, 0); assert cs[0..] == cs;
    case All(cs, _) => ListNeverDefers(cs, False, 0); assert cs[0..] == cs;
  }

  lemma {:induction false} ListNeverDefers(cs: seq<Cond>, stop: CondRc, i: nat)
    requires i <= |cs| && (stop == True || stop == False) && forall j :: 0 <= j < |cs| ==> WellFormed(cs[j])
    ensures ListMeaning(cs[i..], stop).rc != Defer
    decreases cs, |cs| - i
  {
    if i < |cs| {
      NeverDefers(cs[i]);
      ListNeverDefers(cs, stop, i + 1);
      assert cs[i..][0] == cs[i] && cs[i..][1..] == cs[i + 1..];
    }
  }

  // ---------- one evaluation, from the top ----------

  /** The result of one evaluation: the code, the stack left, the deferrals still to
      come, and the leaves that answered. */
  datatype Outcome = Outcome(rc: CondRc, stack: seq<int>, world: seq<bool>, leaves: seq<nat>)

  /** Deferrals are the environment's: each time a leaf could have to wait, it takes the
      next of a finite list of decisions; when they run out nothing waits. */
  function Asked(w: seq<bool>): bool { w != [] && w[0] }
  function Later(w: seq<bool>): (r: seq<bool>) { if w == [] then [] else w[1..] }

  function Eval(c: Cond, s: seq<int>, w: seq<bool>): (o: Outcome)
    decreases c, 0
  {
    match c
    case Test(id, a, n) => Outcome(Negate(n, a), s, w, [id])
    case Wait(id, a, n) =>
      if s == [] then
        if Asked(w) then Outcome(Defer, [0], Later(w), [])
        else Outcome(Negate(n, a), [], Later(w), [id])
      else Outcome(Negate(n, a), s[1..], w, [id])
    case Any(cs, n) =>
      var o := if s == [] then EvalFrom(cs, 0, s, w, True) else EvalFrom(cs, s[0], s[1..], w, True);
      o.(rc := Negate(n, o.rc))
    case All(cs, n) =>
      var o := if s == [] then EvalFrom(cs, 0, s, w, False) else EvalFrom(cs, s[0], s[1..], w, False);
      o.(rc := Negate(n, o.rc))
  }

  function EvalFrom(cs: seq<Cond>, i: int, s: seq<int>, w: seq<bool>, stop: CondRc): (o: Outcome)
    decreases cs, |cs| - i
  {
    if i < 0 || i >= |cs| then Outcome(if stop == False then True else False, s, w, [])
    else
      var o := Eval(cs[i], s, w);
      if o.rc == stop then o
      else if o.rc == Defer then o.(stack := [i] + o.stack)
      else if o.rc == Error then o
      else
        var r := EvalFrom(cs, i + 1, o.stack, o.world, stop);
        r.(leaves := o.leaves + r.leaves)
  }

  /** Where a suspended condition was left: the index of the child, below it the child's
      own place, at the bottom the one element of the leaf that waits. */
  predicate Place(c: Cond, s: seq<int>) {
    match c
    case Test(_, _, _) => false
    case Wait(_, _, _) => |s| == 1
    case Any(cs, _) => s != [] && 0 <= s[0] < |cs| && Place(cs[s[0]], s[1..])
    case All(cs, _) => s != [] && 0 <= s[0] < |cs| && Place(cs[s[0]], s[1..])
  }

  predicate Entry(c: Cond, s: seq<int>) { s == [] || Place(c, s) }

  predicate EntryFrom(cs: seq<Cond>, i: int, s: seq<int>) {
    0 <= i <= |cs| && (s == [] || (i < |cs| && Place(cs[i], s)))
  }

  /** The stack is empty whenever the result is not "defer"; when it is, the stack is a
      place to come back to, and a decision was used up. */
  ghost predicate Settled(c: Cond, w: seq<bool>, o: Outcome) {
    && |o.world| <= |w|
    && (if o.rc == Defer then Place(c, o.stack) && |o.world| < |w| else o.stack == [])
  }

  lemma {:induction false} StackDiscipline(c: Cond, s: seq<int>, w: seq<bool>)
    requires WellFormed(c) && Entry(c, s)
    ensures Settled(c, w, Eval(c, s, w))
    decreases c, 0
  {
    match c
    case Test(_, _, _) =>
    case Wait(_, _, _) =>
    case Any(cs, n) => ListDiscipline(cs, if s == [] then 0 else s[0], if s == [] then s else s[1..], w, True);
    case All(cs, n) => ListDiscipline(cs, if s == [] then 0 else s[0], if s == [] then s else s[1..], w, False);
  }

  lemma {:induction false} ListDiscipline(cs: seq<Cond>, i: int, s: seq<int>, w: seq<bool>, stop: CondRc)
    requires (forall k :: 0 <= k < |cs| ==> WellFormed(cs[k])) && EntryFrom(cs, i, s) && (stop == True || stop == False)
    ensures var o := EvalFrom(cs, i, s, w, stop);
      && |o.world| <= |w|
      && (if o.rc == Defer then |o.world| < |w| && o.stack != [] && 0 <= o.stack[0] < |cs| &&
        Place(cs[o.stack[0]], o.stack[1..])
          else o.stack == [])
    decreases cs, |cs| - i
  {
    if i < |cs| {
      StackDiscipline(cs[i], s, w);
      var o := Eval(cs[i], s, w);
      if o.rc != stop && o.rc != Defer && o.rc != Error {
        ListDiscipline(cs, i + 1, o.stack, o.world, stop);
      }
    }
  }

  /** Whatever stack is found, an evaluation that defers has used up a decision. */
  lemma {:induction false} Progress(c: Cond, s: seq<int>, w: seq<bool>)
    requires WellFormed(c)
    ensures var o := Eval(c, s, w); |o.world| <= |w| && (o.rc == Defer ==> |o.world| < |w|)
    decreases c, 0
  {
    match c
    case Test(_, _, _) =>
    case Wait(_, _, _) =>
    case Any(cs, n) => ListProgress(cs, if s == [] then 0 else s[0], if s == [] then s else s[1..], w, True);
    case All(cs, n) => ListProgress(cs, if s == [] then 0 else s[0], if s == [] then s else s[1..], w, False);
  }

  lemma {:induction false} ListProgress(cs: seq<Cond>, i: int, s: seq<int>, w: seq<bool>, stop: CondRc)
    requires (forall k :: 0 <= k < |cs| ==> WellFormed(cs[k])) && (stop == True || stop == False)
    ensures var o := EvalFrom(cs, i, s, w, stop); |o.world| <= |w| && (o.rc == Defer ==> |o.world| < |w|)
    decreases cs, |cs| - i
  {
    if 0 <= i < |cs| {
      Progress(cs[i], s, w);
      var o := Eval(cs[i], s, w);
      if o.rc != stop && o.rc != Defer && o.rc != Error {
        ListProgress(cs, i + 1, o.stack, o.world, stop);
      }
    }
  }

  /** A leaf of the condition. */
  predicate HasLeaf(c: Cond, id: nat) {
    match c
    case Test(x, _, _) => x == id
    case Wait(x, _, _) => x == id
    case Any(cs, _) => exists k :: 0 <= k < |cs| && HasLeaf(cs[k], id)
    case All(cs, _) => exists k :: 0 <= k < |cs| && HasLeaf(cs[k], id)
  }

  /** Whatever stack is found, only the condition's own leaves are asked. */
  lemma {:induction false} AsksOwn(c: Cond, s: seq<int>, w: seq<bool>)
    ensures forall id :: id in Eval(c, s, w).leaves ==> HasLeaf(c, id)
    decreases c, 0
  {
    match c
    case Test(_, _, _) =>
    case Wait(_, _, _) =>
    case Any(cs, n) => ListAsksOwn(cs, if s == [] then 0 else s[0], if s == [] then s else s[1..], w, True);
    case All(cs, n) => ListAsksOwn(cs, if s == [] then 0 else s[0], if s == [] then s else s[1..], w, False);
  }

  lemma {:induction false} ListAsksOwn(cs: seq<Cond>, i: int, s: seq<int>, w: seq<bool>, stop: CondRc)
    ensures forall id :: id in EvalFrom(cs, i, s, w, stop).leaves ==> exists k :: 0 <= k < |cs| && HasLeaf(cs[k], id)
    decreases cs, |cs| - i
  {
    if 0 <= i < |cs| {
      AsksOwn(cs[i], s, w);
      var o := Eval(cs[i], s, w);
      if o.rc != stop && o.rc != Defer && o.rc != Error {
        ListAsksOwn(cs, i + 1, o.stack, o.world, stop);
      }
    }
  }

  /** A condition fails only by a leaf of its own. */
  lemma {:induction false} ErrorIsAsked(c: Cond)
    requires MeaningOf(c).rc == Error
    ensures MeaningOf(c).leaves != []
    decreases c, 0
  {
    match c
    case Test(_, _, _) =>
    case Wait(_, _, _) =>
    case Any(cs, _) => ListErrorIsAsked(cs, True);
    case All(cs, _) => ListErrorIsAsked(cs, False);
  }

  lemma {:induction false} ListErrorIsAsked(cs: seq<Cond>, stop: CondRc)
    requires ListMeaning(cs, stop).rc == Error && (stop == True || stop == False)
    ensures ListMeaning(cs, stop).leaves != []
    decreases cs
  {
    var m := MeaningOf(cs[0]);
    if m.rc == Error {
      ErrorIsAsked(cs[0]);
    } else if m.rc != stop && m.rc != Defer {
      ListErrorIsAsked(cs[1..], stop);
    }
  }

  // ---------- suspending changes nothing ----------

  /** One step of a suspended run against the run that is never suspended: a finished
      evaluation is the undisturbed one, and a deferred one leaves exactly the rest of it. */
  ghost predicate Agrees(o: Outcome, straight: Outcome, rest: Outcome) {
    if o.rc == Defer then straight == rest.(leaves := o.leaves + rest.leaves)
    else straight == o.(world := [])
  }

  lemma {:induction false} Resumption(c: Cond, s: seq<int>, w: seq<bool>)
    requires WellFormed(c)
    ensures var o := Eval(c, s, w); Agrees(o, Eval(c, s, []), Eval(c, o.stack, []))
    decreases c, 0
  {
    match c
    case Test(_, _, _) =>
    case Wait(_, _, _) =>
    case Any(cs, n) => ListResumption(cs, if s == [] then 0 else s[0], if s == [] then s else s[1..], w, True);
    case All(cs, n) => ListResumption(cs, if s == [] then 0 else s[0], if s == [] then s else s[1..], w, False);
  }

  /** The rest of a list after a child that gave no verdict. */
  lemma AgreesAfter(o: Outcome, r: Outcome, straight: Outcome, rest: Outcome)
    requires Agrees(r, straight, rest) && r.rc == Defer
    ensures Agrees(r.(leaves := o.leaves + r.leaves), straight.(leaves := o.leaves + straight.leaves), rest)
  {
    assert o.leaves + (r.leaves + rest.leaves) == (o.leaves + r.leaves) + rest.leaves;
  }

  lemma {:induction false} ListResumption(cs: seq<Cond>, i: int, s: seq<int>, w: seq<bool>, stop: CondRc)
    requires (forall k :: 0 <= k < |cs| ==> WellFormed(cs[k])) && (stop == True || stop == False)
    ensures var o := EvalFrom(cs, i, s, w, stop);
      && (o.rc == Defer ==> o.stack != [])
      && Agrees(o, EvalFrom(cs, i, s, [], stop),
        if o.rc == Defer then EvalFrom(cs, o.stack[0], o.stack[1..], [], stop) else o)
    decreases cs, |cs| - i
  {
    if 0 <= i < |cs| {
      Resumption(cs[i], s, w);
      var o := Eval(cs[i], s, w);
      if o.rc == Defer {
        assert ([i] + o.stack)[1..] == o.stack;
      }
      if o.rc != stop && o.rc != Defer && o.rc != Error {
        ListResumption(cs, i + 1, o.stack, o.world, stop);
        var r := EvalFrom(cs, i + 1, o.stack, o.world, stop);
        if r.rc == Defer {
          AgreesAfter(o, r, EvalFrom(cs, i + 1, o.stack, [], stop), EvalFrom(cs, r.stack[0], r.stack[1..], [], stop));
        }
      }
    }
  }

  /** Undisturbed, an evaluation is the short-circuit verdict: each leaf it needs answers
      exactly once, in order, and no other. */
  lemma {:induction false} Straight(c: Cond)
    requires WellFormed(c)
    ensures Eval(c, [], []) == Outcome(MeaningOf(c).rc, [], [], MeaningOf(c).leaves) && MeaningOf(c).rc != Defer
    decreases c, 0
  {
    match c
    case Test(_, _, _) =>
    case Wait(_, _, _) =>
    case Any(cs, n) => ListStraight(cs, 0, True); assert cs[0..] == cs;
    case All(cs, n) => ListStraight(cs, 0, False); assert cs[0..] == cs;
  }

  lemma {:induction false} ListStraight(cs: seq<Cond>, i: nat, stop: CondRc)
    requires (forall k :: 0 <= k < |cs| ==> WellFormed(cs[k])) && i <= |cs| && (stop == True || stop == False)
    ensures var m := ListMeaning(cs[i..], stop);
      EvalFrom(cs, i, [], [], stop) == Outcome(m.rc, [], [], m.leaves) && m.rc != Defer
    decreases cs, |cs| - i
  {
    if i < |cs| {
      Straight(cs[i]);
      ListStraight(cs, i + 1, stop);
      assert cs[i..][1..] == cs[i + 1..];
    }
  }

  /** Re-entering until there is a verdict.  Between two entries the environment may
      leave an answer in the last element of the stack. */
  function Complete(c: Cond, s: seq<int>, w: seq<bool>, data: int -> int): (o: Outcome)
    requires WellFormed(c) && Entry(c, s)
    decreases |w|
  {
    var o := Eval(c, s, w);
    StackDiscipline(c, s, w);
    if o.rc != Defer then o
    else
      assert o.stack != [];
      var s' := o.stack[|o.stack| - 1 := data(|o.world|)];
      TailData(c, o.stack, data(|o.world|));
      var r := Complete(c, s', o.world, data);
      r.(leaves := o.leaves + r.leaves)
  }

  /** An answer left at the bottom of the stack is still at its leaf's place, and does not
      change what the rest of the evaluation does. */
  lemma {:induction false} TailData(c: Cond, s: seq<int>, d: int)
    requires Place(c, s) && WellFormed(c)
    ensures s != [] && Place(c, s[|s| - 1 := d]) && Eval(c, s[|s| - 1 := d], []) == Eval(c, s, [])
    decreases c
  {
    match c
    case Test(_, _, _) =>
    case Wait(_, _, _) =>
    case Any(cs, n) => TailChild(cs, s, d, True);
    case All(cs, n) => TailChild(cs, s, d, False);
  }

  lemma {:induction false} TailChild(cs: seq<Cond>, s: seq<int>, d: int, stop: CondRc)
    requires s != [] && 0 <= s[0] < |cs| && Place(cs[s[0]], s[1..]) && forall k :: 0 <= k < |cs| ==> WellFormed(cs[k])
    ensures |s| > 1
    ensures var t := s[|s| - 1 := d];
      && t[0] == s[0] && Place(cs[t[0]], t[1..])
      && EvalFrom(cs, t[0], t[1..], [], stop) == EvalFrom(cs, s[0], s[1..], [], stop)
    decreases cs
  {
    var q := s[1..];
    TailData(cs[s[0]], q, d);
    assert s[|s| - 1 := d][1..] == q[|q| - 1 := d];
  }

  /** The theorem: however a condition is suspended and resumed, it ends with the verdict
      of its meaning, having asked the leaves of its meaning, and an empty stack. */
  lemma {:induction false} CompleteIsMeaning(c: Cond, s: seq<int>, w: seq<bool>, data: int -> int)
    requires WellFormed(c) && Entry(c, s)
    ensures var o := Complete(c, s, w, data); o.rc != Defer && Eval(c, s, []) == o.(world := [])
    ensures s == [] ==> var o := Complete(c, s, w, data);
      o.rc == MeaningOf(c).rc && o.leaves == MeaningOf(c).leaves && o.stack == []
    decreases |w|
  {
    StackDiscipline(c, s, w);
    Resumption(c, s, w);
    Straight(c);
    var o := Eval(c, s, w);
    if o.rc == Defer {
      TailData(c, o.stack, data(|o.world|));
      CompleteIsMeaning(c, o.stack[|o.stack| - 1 := data(|o.world|)], o.world, data);
    }
  }

  /** In logic: however a condition is suspended and resumed, its verdict is whether it
      holds; and so is that of any entry that does not defer. */
  lemma VerdictHolds(c: Cond, w: seq<bool>, data: int -> int)
    requires WellFormed(c) && Answers(c)
    ensures Complete(c, [], w, data).rc == if Holds(c) then True else False
    ensures Eval(c, [], w).rc != Defer ==> Eval(c, [], w).rc == if Holds(c) then True else False
  {
    CompleteIsMeaning(c, [], w, data);
    Resumption(c, [], w);
    Straight(c);
    MeaningHolds(c);
  }

  // ---------- the evaluator ----------

  class World {
    var decisions: seq<bool>

    constructor (decisions: seq<bool>)
      ensures this.decisions == decisions
    {
      this.decisions := decisions;
    }

    /** Does the leaf that asks have to wait? */
    method Ask() returns (b: bool)
      modifies this
      ensures b == Asked(old(decisions)) && decisions == Later(old(decisions))
    {
      b := decisions != [] && decisions[0];
      decisions := if decisions == [] then [] else decisions[1..];
    }
  }

  /** condition_*_eval: one evaluation, on the stack the last one left. */
  method EvalCondition(c: Cond, st: Stack, world: World) returns (rc: CondRc, ghost leaves: seq<nat>)
    requires st.Valid()
    modifies st, world
    ensures st.Valid()
    ensures Outcome(rc, st.Contents(), world.decisions, leaves) == Eval(c, old(st.Contents()), old(world.decisions))
    decreases c, 1
  {
    match c
    case Test(id, a, n) =>
      rc, leaves := Negate(n, a), [id];
    case Wait(id, a, n) =>
      rc, leaves := EvalWait(c, st, world);
    case Any(cs, n) =>
      rc, leaves := EvalList(cs, True, st, world);
      rc := Negate(n, rc);
    case All(cs, n) =>
      rc, leaves := EvalList(cs, False, st, world);
      rc := Negate(n, rc);
  }

  /** condition_delay_eval, and the waiting part of condition_limit_check_eval: with an
      empty stack the leaf starts, and may push its element and defer; with an element on
      the stack its answer has come. */
  method EvalWait(c: Cond, st: Stack, world: World) returns (rc: CondRc, ghost leaves: seq<nat>)
    requires st.Valid() && c.Wait?
    modifies st, world
    ensures st.Valid()
    ensures Outcome(rc, st.Contents(), world.decisions, leaves) == Eval(c, old(st.Contents()), old(world.decisions))
  {
    leaves := [c.id];
    var empty := st.Empty();
    if empty {
      var wait := world.Ask();
      if wait {
        st.Push(0);
        return Defer, [];
      }
    } else {
      var _ := st.Pop();
    }
    rc := Negate(c.negate, c.answer);
  }

  /** condition_list_eval. */
  method EvalList(cs: seq<Cond>, stop: CondRc, st: Stack, world: World) returns (rc: CondRc, ghost leaves: seq<nat>)
    requires st.Valid() && (stop == True || stop == False)
    modifies st, world
    ensures st.Valid()
    ensures var s := old(st.Contents());
      Outcome(rc, st.Contents(), world.decisions, leaves) ==
      if s == [] then EvalFrom(cs, 0, s, old(world.decisions), stop)
        else EvalFrom(cs, s[0], s[1..], old(world.decisions), stop)
    decreases cs, |cs|, 0
  {
    var i := 0;
    var empty := st.Empty();
    if !empty {
      i := st.Pop();
    }
    ghost var whole := EvalFrom(cs, i, st.Contents(), world.decisions, stop);
    leaves := [];
    while 0 <= i < |cs|
      invariant st.Valid()
      invariant whole == Prefixed(leaves, EvalFrom(cs, i, st.Contents(), world.decisions, stop))
      decreases |cs| - i
    {
      ghost var s, w, more := st.Contents(), world.decisions, [];
      rc, more := EvalCondition(cs[i], st, world);
      var j := i + 1;
      EvalStep(cs, i, j, s, w, stop, leaves, Outcome(rc, st.Contents(), world.decisions, more));
      leaves := leaves + more;
      if rc == stop {
        return stop, leaves;
      } else if rc == Defer {
        st.Push(i);
        return rc, leaves;
      } else if rc == Error {
        return rc, leaves;
      }
      i := j;
    }
    rc := if stop == False then True else False;
  }

  lemma EvalStep(cs: seq<Cond>, i: int, j: int, s: seq<int>, w: seq<bool>, stop: CondRc, leaves: seq<nat>, o: Outcome)
    requires 0 <= i < |cs| && j == i + 1 && o == Eval(cs[i], s, w)
    ensures Prefixed(leaves, EvalFrom(cs, i, s, w, stop)) ==
      if o.rc == stop then Prefixed(leaves, o)
      else if o.rc == Defer then Prefixed(leaves, o).(stack := [i] + o.stack)
      else if o.rc == Error then Prefixed(leaves, o)
      else Prefixed(leaves + o.leaves, EvalFrom(cs, j, o.stack, o.world, stop))
  {
    var r := EvalFrom(cs, j, o.stack, o.world, stop);
    assert leaves + (o.leaves + r.leaves) == (leaves + o.leaves) + r.leaves;
  }

  ghost function Prefixed(leaves: seq<nat>, o: Outcome): (r: Outcome) {
    o.(leaves := leaves + o.leaves)
  }
}
