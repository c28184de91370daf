/** A list of things to be reaped once they are ready: a doubly linked list through the
    things themselves, looked through at every tick. */
module Reaper {
  import opened Basics

  class Thing {
    var prev: Thing?
    var next: Thing?

    constructor ()
      ensures prev == null && next == null
    {
      prev, next := null, null;
    }
  }

  function PrevOf(things: seq<Thing>, i: nat): Thing?
    requires i < |things|
  {
    if i == 0 then null else things[i - 1]
  }

  function NextOf(things: seq<Thing>, i: nat): Thing?
    requires i < |things|
  {
    if i + 1 == |things| then null else things[i + 1]
  }

  predicate Distinct(things: seq<Thing>) {
    forall i, j :: 0 <= i < j < |things| ==> things[i] != things[j]
  }

  function Drop(things: seq<Thing>, i: nat): (r: seq<Thing>)
    requires i < |things|
    ensures |r| == |things| - 1
  {
    things[..i] + things[i + 1..]
  }

  lemma DropAt(things: seq<Thing>, i: nat, j: nat, k: nat)
    requires i < |things| && j < |things| - 1 && k == (if j < i then j else j + 1)
    ensures Drop(things, i)[j] == things[k]
  {
  }

  lemma DropDistinct(things: seq<Thing>, i: nat)
    requires Distinct(things) && i < |things|
    ensures Distinct(Drop(things, i))
    ensures forall t :: t in Drop(things, i) <==> t in things && t != things[i]
  {
    forall j | 0 <= j < |things| - 1 ensures Drop(things, i)[j] == things[if j < i then j else j + 1] {
      DropAt(things, i, j, if j < i then j else j + 1);
    }
    forall k | 0 <= k < |things| && k != i ensures things[k] in Drop(things, i) {
      assert things[k] == Drop(things, i)[if k < i then k else k - 1];
    }
  }

  // ---------- what a tick does ----------

  function Kept(things: seq<Thing>, ready: set<Thing>): (r: seq<Thing>) {
    if things == [] then [] else (if things[0] in ready then [] else [things[0]]) + Kept(things[1..], ready)
  }

  function Ripe(things: seq<Thing>, ready: set<Thing>): (r: seq<Thing>) {
    if things == [] then [] else (if things[0] in ready then [things[0]] else []) + Ripe(things[1..], ready)
  }

  function Count(t: Thing, ready: set<Thing>, most: nat, notready: nat): nat {
    if t !in ready && most > 0 then notready + 1 else notready
  }

  /** How many things a tick looks at: it stops after more than `most` that are not ready,
      or, if `most` is zero, not before the end. */
  function Reach(things: seq<Thing>, ready: set<Thing>, most: nat, notready: nat): (k: nat)
    ensures k <= |things|
  {
    if things == [] || notready > most then 0
    else 1 + Reach(things[1..], ready, most, Count(things[0], ready, most, notready))
  }

  datatype Tick = Tick(things: seq<Thing>, reaped: seq<Thing>)

  /** A rotating tick, thing by thing: the list is what is left and then what was kept. */
  function Rotated(left: seq<Thing>, kept: seq<Thing>, ready: set<Thing>, most: nat, notready: nat): Tick
    decreases |left|
  {
    if left == [] || notready > most then Tick(left + kept, [])
    else if left[0] in ready then
      var r := Rotated(left[1..], kept, ready, most, notready);
      Tick(r.things, [left[0]] + r.reaped)
    else Rotated(left[1..], kept + [left[0]], ready, most, Count(left[0], ready, most, notready))
  }

  /** A plain tick: the list is what was kept and then what is left. */
  function Scanned(kept: seq<Thing>, left: seq<Thing>, ready: set<Thing>, most: nat, notready: nat): Tick
    decreases |left|
  {
    if left == [] || notready > most then Tick(kept + left, [])
    else if left[0] in ready then
      var r := Scanned(kept, left[1..], ready, most, notready);
      Tick(r.things, [left[0]] + r.reaped)
    else Scanned(kept + [left[0]], left[1..], ready, most, Count(left[0], ready, most, notready))
  }

  /** What is looked at is the first things; the ready ones are reaped, the others are kept,
      in order, and go to the end. */
  lemma {:induction false} RotatedIs(left: seq<Thing>, kept: seq<Thing>, ready: set<Thing>, most: nat, notready: nat)
    ensures var k := Reach(left, ready, most, notready);
      Rotated(left, kept, ready, most, notready) ==
        Tick(left[k..] + (kept + Kept(left[..k], ready)), Ripe(left[..k], ready))
    decreases |left|
  {
    var k := Reach(left, ready, most, notready);
    if left == [] || notready > most {
      assert left[..0] == [] && kept + [] == kept;
    } else {
      var n := Count(left[0], ready, most, notready);
      assert left[..k][1..] == left[1..][..k - 1] && left[k..] == left[1..][k - 1..];
      if left[0] in ready {
        RotatedIs(left[1..], kept, ready, most, notready);
      } else {
        RotatedIs(left[1..], kept + [left[0]], ready, most, n);
        Regroup(kept, [left[0]], Kept(left[1..][..k - 1], ready));
      }
    }
  }

  lemma {:induction false} ScannedIs(kept: seq<Thing>, left: seq<Thing>, ready: set<Thing>, most: nat, notready: nat)
    ensures var k := Reach(left, ready, most, notready);
      Scanned(kept, left, ready, most, notready) ==
        Tick((kept + Kept(left[..k], ready)) + left[k..], Ripe(left[..k], ready))
    decreases |left|
  {
    var k := Reach(left, ready, most, notready);
    if left == [] || notready > most {
      assert left[..0] == [] && kept + [] == kept;
    } else {
      var n := Count(left[0], ready, most, notready);
      assert left[..k][1..] == left[1..][..k - 1] && left[k..] == left[1..][k - 1..];
      if left[0] in ready {
        ScannedIs(kept, left[1..], ready, most, notready);
      } else {
        ScannedIs(kept + [left[0]], left[1..], ready, most, n);
        Regroup(kept, [left[0]], Kept(left[1..][..k - 1], ready));
      }
    }
  }

  /** Nothing is lost and nothing is reaped twice: kept and ripe are all there was, and the
      ripe ones are just those ready. */
  lemma {:induction false} KeptOrRipe(things: seq<Thing>, ready: set<Thing>)
    ensures multiset(Kept(things, ready)) + multiset(Ripe(things, ready)) == multiset(things)
    ensures forall t :: t in Kept(things, ready) ==> t !in ready
    ensures forall t :: t in Ripe(things, ready) ==> t in ready
  {
    if things != [] {
      KeptOrRipe(things[1..], ready);
      assert things == [things[0]] + things[1..];
    }
  }

  /** A tick that stops early has found one more than `most` not ready; it never finds more. */
  lemma {:induction false} ReachBound(things: seq<Thing>, ready: set<Thing>, most: nat, notready: nat)
    requires most > 0 && notready <= most
    ensures var k := Reach(things, ready, most, notready);
      && notready + |Kept(things[..k], ready)| <= most + 1
      && (k < |things| ==> notready + |Kept(things[..k], ready)| == most + 1)
  {
    if things != [] {
      var n, k := Count(things[0], ready, most, notready), Reach(things, ready, most, notready);
      if n <= most {
        ReachBound(things[1..], ready, most, n);
      }
      assert things[..k][1..] == things[1..][..k - 1];
    }
  }

  /** With no bound, everything is looked at. */
  lemma {:induction false} ReachesAll(things: seq<Thing>, ready: set<Thing>)
    ensures Reach(things, ready, 0, 0) == |things|
  {
    if things != [] {
      ReachesAll(things[1..], ready);
    }
  }

  /** So either tick then keeps just what is not ready, in order, and reaps the rest. */
  lemma UnboundedTick(things: seq<Thing>, ready: set<Thing>)
    ensures Rotated(things, [], ready, 0, 0) == Tick(Kept(things, ready), Ripe(things, ready))
    ensures Scanned([], things, ready, 0, 0) == Tick(Kept(things, ready), Ripe(things, ready))
  {
    ReachesAll(things, ready);
    RotatedIs(things, [], ready, 0, 0);
    ScannedIs([], things, ready, 0, 0);
    var n := |things|;
    assert things[..n] == things && things[n..] == [];
    var kept := Kept(things, ready);
    assert [] + ([] + kept) == kept && ([] + kept) + [] == kept;
  }

  // ---------- the list ----------

  /** The i-th thing's links are to its neighbours. */
  ghost predicate LinkOK(things: seq<Thing>, i: nat)
    requires i < |things|
    reads things[i]
  {
    things[i].prev == PrevOf(things, i) && things[i].next == NextOf(things, i)
  }

  class ReapList {
    var first: Thing?
    var last: Thing?
    var count: int
    var reaped: seq<Thing>
    ghost var things: seq<Thing>
    ghost var nodes: set<Thing>      // those in the list, and perhaps others that were

    /** The links, both ends and the count say the same. */
    ghost predicate Valid()
      reads this, nodes
    {
      && (forall t :: t in things ==> t in nodes) && Distinct(things) && count == |things|
      && first == (if things == [] then null else things[0])
      && last == (if things == [] then null else things[|things| - 1])
      && forall i :: 0 <= i < |things| ==> LinkOK(things, i)
    }

    constructor ()
      ensures Valid() && things == [] && reaped == [] && nodes == {}
    {
      first, last, count, reaped, things, nodes := null, null, 0, [], [], {};
    }

    /** Links past the i-th thing, which stays as it is. */
    method Unlink(cur: Thing, next: Thing?, ghost i: nat)
      requires Valid() && i < |things| && cur == things[i] && next == cur.next
      modifies this`first, this`last, this`count, this`things, nodes
      ensures Valid() && things == Drop(old(things), i)
    {
      ghost var was := things;
      assert LinkOK(was, i);
      var prev := cur.prev;
      if prev != null {
        prev.next := next;
      }
      if next != null {
        next.prev := prev;
      }
      if cur == first {
        first := next;
      }
      if cur == last {
        last := prev;
      }
      count := count - 1;
      things := Drop(things, i);
      DropDistinct(was, i);
      forall j | 0 <= j < |things| ensures LinkOK(things, j) {
        var k := if j < i then j else j + 1;
        DropAt(was, i, j, k);
        assert old(LinkOK(was, k));
      }
    }

    method Append(thing: Thing)
      requires Valid() && thing !in things
      modifies this`first, this`last, this`count, this`things, this`nodes, nodes, thing
      ensures Valid() && things == old(things) + [thing] && nodes == old(nodes) + {thing}
    {
      ghost var was := things;
      if last != null {
        last.next := thing;
      }
      thing.prev := last;
      thing.next := null;
      last := thing;
      if first == null {
        first := thing;
      }
      count := count + 1;
      things, nodes := things + [thing], nodes + {thing};
      forall j | 0 <= j < |things| ensures LinkOK(things, j) {
        if j < |was| {
          assert old(LinkOK(was, j));
        }
      }
    }

    /** A thing that is ready is reaped at once; any other joins the end of the list. */
    method Add(thing: Thing, ready: bool) returns (done: bool)
      requires Valid() && thing !in things
      modifies this, nodes, thing
      ensures Valid() && done == ready && nodes == old(nodes) + (if ready then {} else {thing})
      ensures things == if ready then old(things) else old(things) + [thing]
      ensures reaped == if ready then old(reaped) + [thing] else old(reaped)
    {
      done := ready;
      if ready {
        reaped := reaped + [thing];
      } else {
        Append(thing);
      }
    }

    method Withdraw(thing: Thing, ghost i: nat)
      requires Valid() && i < |things| && thing == things[i]
      modifies this`first, this`last, this`count, this`things, nodes
      ensures Valid() && things == Drop(old(things), i) && thing.prev == null && thing.next == null
    {
      Unlink(thing, thing.next, i);
      thing.next := null;
      thing.prev := null;
    }

    method ReapReadyThing(cur: Thing, next: Thing?, ghost i: nat)
      requires Valid() && i < |things| && cur == things[i] && next == cur.next
      modifies this`first, this`last, this`count, this`things, this`reaped, nodes
      ensures Valid() && things == Drop(old(things), i) && reaped == old(reaped) + [cur]
    {
      assert LinkOK(things, i);
      assert cur.prev != null && next != null ==> cur.prev != next;
      Unlink(cur, next, i);
      reaped := reaped + [cur];
    }

    /** The plain tick: what is looked at and not ready stays where it is. */
    method ReapTick(ready: set<Thing>, most: nat)
      requires Valid()
      modifies this`first, this`last, this`count, this`things, this`reaped, nodes
      ensures Valid()
      ensures var r := Scanned([], old(things), ready, most, 0); things == r.things && reaped == old(reaped) + r.reaped
      ensures most == 0 ==> things == Kept(old(things), ready) && reaped == old(reaped) + Ripe(old(things), ready)
    {
      UnboundedTick(things, ready);
      var cur, notready: nat := first, 0;
      ghost var kept: seq<Thing>, left, goal := [], things, Scanned([], things, ready, most, 0);
      while cur != null && notready <= most
        invariant Valid() && things == kept + left
        invariant cur == if left == [] then null else left[0]
        invariant goal.things == Scanned(kept, left, ready, most, notready).things
        invariant old(reaped) + goal.reaped == reaped + Scanned(kept, left, ready, most, notready).reaped
        decreases |left|
      {
        ghost var rest := Scanned(kept, left[1..], ready, most, notready).reaped;
        assert LinkOK(things, |kept|);
        var next := cur.next;
        if cur in ready {
          Regroup(reaped, [left[0]], rest);
          ReapReadyThing(cur, next, |kept|);
          assert things == kept + left[1..];
        } else {
          if most > 0 {
            notready := notready + 1;
          }
          assert things == (kept + [left[0]]) + left[1..];
          kept := kept + [left[0]];
        }
        cur, left := next, left[1..];
      }
      assert reaped + [] == reaped;
    }

    /** Moves a thing that is not the last to the end. */
    method MoveToEnd(cur: Thing, next: Thing?, ghost i: nat)
      requires Valid() && i + 1 < |things| && cur == things[i] && next == cur.next
      modifies this`first, this`last, this`things, nodes
      ensures Valid() && things == Drop(old(things), i) + [cur]
    {
      ghost var was := things;
      assert LinkOK(was, i);
      var prev := cur.prev;
      if prev != null {
        prev.next := next;
      }
      if next != null {
        next.prev := prev;
      }
      if last != null {
        last.next := cur;
      }
      cur.prev := last;
      cur.next := null;
      last := cur;
      if first == cur {
        first := next;
      }
      DropDistinct(was, i);
      things := Drop(things, i) + [cur];
      forall j | 0 <= j < |things| ensures LinkOK(things, j) {
        if j + 1 < |things| {
          var k := if j < i then j else j + 1;
          DropAt(was, i, j, k);
          assert old(LinkOK(was, k));
        }
      }
    }

    /** One turn of the rotating tick: the first thing is reaped or goes to the end. */
    method Turn(cur: Thing, ready: set<Thing>) returns (next: Thing?)
      requires Valid() && things != [] && cur == things[0]
      modifies this`first, this`last, this`count, this`things, this`reaped, nodes
      ensures Valid() && next == NextOf(old(things), 0)
      ensures things == if cur in ready then old(things)[1..] else old(things)[1..] + [cur]
      ensures reaped == if cur in ready then old(reaped) + [cur] else old(reaped)
    {
      assert LinkOK(things, 0);
      next := cur.next;
      if cur in ready {
        ReapReadyThing(cur, next, 0);
      } else if last != cur {
        MoveToEnd(cur, next, 0);
      }
    }

    /** The rotating tick: what is looked at and not ready goes to the end. */
    method RotatingTick(ready: set<Thing>, most: nat)
      requires Valid()
      modifies this`first, this`last, this`count, this`things, this`reaped, nodes
      ensures Valid()
      ensures var r := Rotated(old(things), [], ready, most, 0); things == r.things && reaped == old(reaped) + r.reaped
      ensures most == 0 ==> things == Kept(old(things), ready) && reaped == old(reaped) + Ripe(old(things), ready)
    {
      UnboundedTick(things, ready);
      var cur, firstmoved: Thing?, notready: nat := first, null, 0;
      ghost var left, kept: seq<Thing>, goal, start := things, [], Rotated(things, [], ready, most, 0), reaped;
      assert left + kept == left;
      while cur != null && cur != firstmoved && notready <= most
        invariant Valid() && At(things, left, kept, cur, firstmoved)
        invariant Ahead(goal, start, reaped, Rotated(left, kept, ready, most, notready))
        decreases |left|
      {
        cur, firstmoved, notready, left, kept := Look(cur, firstmoved, notready, ready, most, left, kept, goal, start);
      }
      assert reaped + [] == reaped;
    }

    /** One thing looked at, and what the loop then goes on with. */
    method Look(cur: Thing, firstmoved: Thing?, notready: nat, ready: set<Thing>, most: nat,
                ghost left: seq<Thing>, ghost kept: seq<Thing>, ghost goal: Tick, ghost start: seq<Thing>)
      returns (next: Thing?, fm: Thing?, n: nat, ghost rest: seq<Thing>, ghost more: seq<Thing>)
      requires Valid() && At(things, left, kept, cur, firstmoved) && cur != firstmoved && notready <= most
      requires Ahead(goal, start, reaped, Rotated(left, kept, ready, most, notready))
      modifies this`first, this`last, this`count, this`things, this`reaped, nodes
      ensures Valid() && At(things, rest, more, next, fm) && |rest| < |left|
      ensures Ahead(goal, start, reaped, Rotated(rest, more, ready, most, n))
    {
      ghost var was := things;
      AtFirst(was, left, kept, cur, firstmoved);
      RotatedStep(left, kept, ready, most, notready, goal, start, reaped);
      next := Turn(cur, ready);
      fm, n, rest, more := firstmoved, notready, left[1..], if cur in ready then kept else kept + [cur];
      AtNext(was, left, kept, cur, firstmoved, ready, next, things, more);
      if cur !in ready {
        if most > 0 {
          n := notready + 1;
        }
        if firstmoved == null {
          fm := cur;
        }
      }
    }
  }

  /** Where the loop is: `left` is still to be looked at, and `kept` has gone to the end. */
  ghost predicate At(things: seq<Thing>, left: seq<Thing>, kept: seq<Thing>, cur: Thing?, firstmoved: Thing?) {
    && things == left + kept
    && firstmoved == (if kept == [] then null else kept[0]) && (left != [] ==> left[0] != firstmoved)
    && if left == [] then cur == null || cur == firstmoved else cur == left[0]
  }

  /** A tick that is to end as `goal` has got as far as `done` and has `rest` to do. */
  ghost predicate Ahead(goal: Tick, start: seq<Thing>, done: seq<Thing>, rest: Tick) {
    goal.things == rest.things && start + goal.reaped == done + rest.reaped
  }

  lemma RotatedStep(left: seq<Thing>, kept: seq<Thing>, ready: set<Thing>, most: nat, notready: nat,
                    goal: Tick, start: seq<Thing>, done: seq<Thing>)
    requires left != [] && notready <= most && Ahead(goal, start, done, Rotated(left, kept, ready, most, notready))
    ensures left[0] in ready ==> Ahead(goal, start, done + [left[0]], Rotated(left[1..], kept, ready, most, notready))
    ensures left[0] !in ready ==>
      Ahead(goal, start, done, Rotated(left[1..], kept + [left[0]], ready, most, Count(left[0], ready, most, notready)))
  {
    Regroup(done, [left[0]], Rotated(left[1..], kept, ready, most, notready).reaped);
  }

  lemma AtFirst(things: seq<Thing>, left: seq<Thing>, kept: seq<Thing>, cur: Thing, firstmoved: Thing?)
    requires At(things, left, kept, cur, firstmoved) && cur != firstmoved
    ensures left != [] && things != [] && left[0] == cur == things[0]
  {
  }

  /** The first thing has gone, or gone to the end. */
  lemma AtNext(things: seq<Thing>, left: seq<Thing>, kept: seq<Thing>, cur: Thing, firstmoved: Thing?,
               ready: set<Thing>, next: Thing?, now: seq<Thing>, more: seq<Thing>)
    requires At(things, left, kept, cur, firstmoved) && left != [] && things != [] && Distinct(now)
    requires next == NextOf(things, 0) && now == if cur in ready then things[1..] else things[1..] + [cur]
    requires more == if cur in ready then kept else kept + [cur]
    ensures At(now, left[1..], more, next, if cur !in ready && firstmoved == null then cur else firstmoved)
  {
    FrontAndRest(left, kept);
    assert now == left[1..] + more;
    Apart(left[1..], more);
  }

  lemma FrontAndRest(left: seq<Thing>, kept: seq<Thing>)
    requires left != []
    ensures (left + kept)[0] == left[0] && (left + kept)[1..] == left[1..] + kept
    ensures (left + kept)[1..] + [left[0]] == left[1..] + (kept + [left[0]])
    ensures NextOf(left + kept, 0) == (if |left| > 1 then left[1] else if kept != [] then kept[0] else null)
  {
  }

  lemma Apart(left: seq<Thing>, kept: seq<Thing>)
    requires Distinct(left + kept)
    ensures left != [] && kept != [] ==> left[0] != kept[0]
  {
    assert left != [] && kept != [] ==> (left + kept)[0] != (left + kept)[|left|];
  }
}
