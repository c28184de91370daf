/** The reply reader: a buffer, a place in it, and a stack of the items being read. */
module RespReader {
  import opened Basics
  import opened Resp
  import opened RespDrain

  /** The byte at i, or the terminating zero. */
  function ByteAt(s: seq<Byte>, i: nat): Byte { if i < |s| then s[i] else 0 }

  method SeekNewline(s: seq<Byte>) returns (at: Option<nat>)
    ensures at == Newline(s, 0)
  {
    var pos: int, last := 0, |s| - 1;
    while pos < last
      invariant 0 <= pos && forall j :: 0 <= j < pos ==> !NewlineAt(s, j)
    {
      while pos < last && s[pos] != CR
        invariant 0 <= pos <= last && forall j :: 0 <= j < pos ==> !NewlineAt(s, j)
      {
        pos := pos + 1;
      }
      if s[pos] != CR {
        return None;
      } else if ByteAt(s, pos + 1) == LF {
        NewlineIs(s, pos);
        return Some(pos);
      } else {
        pos := pos + 1;
      }
    }
    at := None;
  }

  method ReadLongLong(s: seq<Byte>, ghost k: nat) returns (r: int)
    requires k < |s| && s[k] == CR
    ensures r == ReadLong(s)
  {
    var v: nat, mult, i := 0, 1, 0;
    if s[0] == MINUS {
      mult, i := -1, 1;
    } else if s[0] == PLUS {
      i := 1;
    }
    ghost var start := i;
    while s[i] != CR
      invariant start <= i <= k
      decreases k - i
      invariant ReadDigits(s, i, v) == ReadDigits(s, start, 0) && AllDigits(s, i) == AllDigits(s, start)
    {
      var dec := s[i] - ZERO;
      if 0 <= dec < 10 {
        v := 10 * v + dec;
      } else {
        return -1;
      }
      i := i + 1;
    }
    r := mult * v;
  }

  class Reader {
    var buf: seq<Byte>
    var pos: nat
    var len: nat
    const rstack: array<Task>
    var ridx: int
    var reply: Option<Reply>
    var err: Option<Fault>

    ghost predicate Valid()
      reads this, rstack
    {
      && pos <= len == |buf| && rstack.Length == LEVELS && -1 <= ridx < LEVELS
      && StackOK(Stack()) && (err.Some? ==> ridx == -1 && buf == [])
    }

    /** The items being read; none at all is as good as an outermost one not begun. */
    ghost function Stack(): (s: seq<Task>)
      reads this`ridx, rstack
      ensures s != []
    {
      if 0 <= ridx < rstack.Length then rstack[..ridx + 1] else [ROOT]
    }

    ghost function Rest(): seq<Byte>
      reads this`buf, this`pos
    {
      if pos <= |buf| then buf[pos..] else []
    }

    constructor ()
      ensures Settled() && Stack() == [ROOT] && Rest() == [] && err == None && fresh(rstack)
    {
      buf, pos, len, ridx, reply, err := [], 0, 0, -1, None, None;
      rstack := new Task[9](_ => ROOT);
    }

    method SetError(fault: Fault)
      requires Valid()
      modifies this
      ensures Valid() && err == Some(fault) && reply == None && Stack() == [ROOT] && Rest() == []
    {
      reply := None;
      buf, pos, len := [], 0, 0;
      ridx := -1;
      err := Some(fault);
    }

    /** Between calls: no fault is left to be noticed. */
    ghost predicate Settled()
      reads this, rstack
    {
      Valid() && !(Top(Stack()).kind == Some(ArrayItem) && |Stack()| == LEVELS)
    }

    /** What one step of reading leaves. */
    ghost predicate Did(o: Outcome, ok: bool, stack: seq<Task>, rest: seq<Byte>)
      reads this, rstack
      requires o.Moved? ==> o.n <= |rest|
    {
      match o
      case Stuck => !ok && err == None && ridx >= 0 && Stack() == stack && Rest() == rest
      case Failed(fault) => !ok && err == Some(fault)
      case Moved(next, n, done) =>
        && ok && err == None && Stack() == next && Rest() == rest[n..]
        && (if done.Some? then ridx == -1 && reply == done else ridx >= 0)
    }

    /** The item at hand is complete: on to the next, completing the arrays that end here. */
    method MoveToNextTask(obj: Reply)
      requires Valid() && ridx >= 0
      modifies this`ridx, this`reply, rstack
      ensures var f := Finish(old(Stack()), obj);
        Stack() == f.stack && (if f.done.Some? then ridx == -1 && reply == f.done else 0 <= ridx <= old(ridx))
    {
      var done := obj;
      ghost var all, goal := rstack[..], Finish(Stack(), obj);
      assert Stack() == all[..ridx + 1];
      while ridx >= 0
        invariant 0 <= ridx <= old(ridx) && rstack[..] == all && ComesTo(all, ridx, done, goal)
      {
        if ridx == 0 {
          RootEnds(all, done, goal);
          reply := Some(done);
          ridx := ridx - 1;
          return;
        }
        var cur, prv := rstack[ridx], rstack[ridx - 1];
        TopTwo(all, ridx, prv, cur, done, goal);
        if cur.idx == prv.elements - 1 {
          ArrayEnds(all, ridx, prv, cur, done, goal);
          done := Array(prv.elements, prv.items + [done]);
          ridx := ridx - 1;
        } else {
          NextInArray(all, ridx, prv, cur, done, goal);
          NextElement(prv, cur.idx, done);
          return;
        }
      }
    }

    /** The item joins its array, and the next one is to come. */
    method NextElement(prv: Task, idx: int, obj: Reply)
      requires 0 < ridx < rstack.Length && prv == rstack[ridx - 1]
      modifies rstack
      ensures rstack[..ridx + 1] == old(rstack[..])[..ridx - 1] + [prv.(items := prv.items + [obj]), Fresh(idx + 1)]
    {
      ghost var all := rstack[..];
      rstack[ridx - 1] := prv.(items := prv.items + [obj]);
      rstack[ridx] := Fresh(idx + 1);
      assert rstack[..ridx + 1] == all[..ridx - 1] + [rstack[ridx - 1], rstack[ridx]];
    }

    /** An item of n bytes is complete. */
    method CompleteItem(obj: Reply, n: nat)
      requires Valid() && ridx >= 0 && err == None && n <= |Rest()|
      modifies this`pos, this`ridx, this`reply, rstack
      ensures Valid() && Did(Complete(old(Stack()), obj, n), true, old(Stack()), old(Rest()))
    {
      FinishOK(Stack(), obj);
      ghost var rest := Rest();
      pos := pos + n;
      MoveToNextTask(obj);
      assert Rest() == rest[n..];
    }

    method ProcessLineItem(kind: Kind) returns (ok: bool)
      requires Valid() && ridx >= 0 && err == None
      requires Top(Stack()).kind == Some(kind) && kind != StringItem && kind != ArrayItem
      modifies this`pos, this`ridx, this`reply, rstack
      ensures Valid() && Did(Step(old(Stack()), old(Rest())), ok, old(Stack()), old(Rest()))
    {
      var p := buf[pos..];
      var s := SeekNewline(p);
      if s.None? {
        return false;
      }
      var obj;
      if kind == IntegerItem {
        var v := ReadLongLong(p, s.value);
        obj := Integer(v);
      } else if kind == StatusItem {
        obj := Status(p[..s.value]);
      } else {
        obj := Error(p[..s.value]);
      }
      CompleteItem(obj, s.value + 2);
      ok := true;
    }

    method ProcessBulkItem() returns (ok: bool)
      requires Valid() && ridx >= 0 && err == None && Top(Stack()).kind == Some(StringItem)
      modifies this`pos, this`ridx, this`reply, rstack
      ensures Valid() && Did(Step(old(Stack()), old(Rest())), ok, old(Stack()), old(Rest()))
    {
      var p := buf[pos..];
      ghost var stack := Stack();
      ghost var o := Step(stack, p);
      var s := SeekNewline(p);
      if s.None? {
        assert o == Stuck;
        return false;
      }
      var length := ReadLongLong(p, s.value);
      assert o == StepBulk(stack, p, s.value);
      if length < 0 {
        CompleteItem(Nil, s.value + 2);
        ok := true;
      } else {
        ok := TakeBulk(p, s.value, length, o);
      }
    }

    /** A bulk string is read only when all of it is there. */
    method TakeBulk(p: seq<Byte>, nl: nat, length: nat, ghost o: Outcome) returns (ok: bool)
      requires Valid() && ridx >= 0 && err == None && p == Rest() && nl + 2 <= |p|
      requires o == StepBulk(Stack(), p, nl) && ReadLong(p) == length
      modifies this`pos, this`ridx, this`reply, rstack
      ensures Valid() && Did(o, ok, old(Stack()), old(Rest()))
    {
      var bytelen := nl + 2 + length + 2;
      ok := pos + bytelen <= len;
      if ok {
        CompleteItem(String(p[nl + 2..nl + 2 + length]), bytelen);
      }
    }

    method Nest(elements: int)
      requires Valid() && 0 <= ridx < LEVELS - 1 && elements > 0
      modifies this`ridx, rstack
      ensures Stack() == WithTop(old(Stack()), Task(Some(ArrayItem), elements, Top(old(Stack())).idx, [])) + [Fresh(0)]
      ensures ridx == old(ridx) + 1 && StackOK(Stack())
    {
      ghost var s := Stack();
      ghost var cur := Task(Some(ArrayItem), elements, Top(s).idx, []);
      WithTopOK(s, cur);
      rstack[ridx] := Task(Some(ArrayItem), elements, rstack[ridx].idx, []);
      ridx := ridx + 1;
      rstack[ridx] := Fresh(0);
      assert Stack() == WithTop(s, cur) + [Fresh(0)];
      NestOK(WithTop(s, cur), Fresh(0));
    }

    method ProcessMultiBulkItem() returns (ok: bool)
      requires Valid() && ridx >= 0 && err == None && Top(Stack()).kind == Some(ArrayItem)
      modifies this, rstack
      ensures Valid() && Did(Step(old(Stack()), old(Rest())), ok, old(Stack()), old(Rest()))
    {
      if ridx == 8 {
        SetError(TooDeep);
        return false;
      }
      var p := buf[pos..];
      ghost var stack := Stack();
      ghost var o := Step(stack, p);
      var s := SeekNewline(p);
      if s.None? {
        assert o == Stuck;
        return false;
      }
      var elements := ReadLongLong(p, s.value);
      assert o == StepArray(stack, p, s.value);
      TakeArray(elements, s.value + 2, o);
      ok := true;
    }

    /** An array header of n bytes: nothing, an empty array, or elements to come. */
    method TakeArray(elements: int, n: nat, ghost o: Outcome)
      requires Valid() && 0 <= ridx < LEVELS - 1 && err == None && n <= |Rest()|
      requires o == if elements == -1 then Complete(Stack(), Nil, n)
        else if elements > 0 then
          Moved(WithTop(Stack(), Task(Some(ArrayItem), elements, Top(Stack()).idx, [])) + [Fresh(0)], n, None)
        else Complete(Stack(), Array(elements, []), n)
      modifies this`pos, this`ridx, this`reply, rstack
      ensures Valid() && Did(o, true, old(Stack()), old(Rest()))
    {
      if elements == -1 {
        CompleteItem(Nil, n);
      } else if elements > 0 {
        OpenArray(elements, n, o);
      } else {
        CompleteItem(Array(elements, []), n);
      }
    }

    method OpenArray(elements: int, n: nat, ghost o: Outcome)
      requires Valid() && 0 <= ridx < LEVELS - 1 && err == None && elements > 0 && n <= |Rest()|
      requires o == Moved(WithTop(Stack(), Task(Some(ArrayItem), elements, Top(Stack()).idx, [])) + [Fresh(0)], n, None)
      modifies this`pos, this`ridx, rstack
      ensures Valid() && Did(o, true, old(Stack()), old(Rest()))
    {
      ghost var rest := Rest();
      pos := pos + n;
      assert Rest() == rest[n..];
      Nest(elements);
    }

    /** Reads the byte that says what the item is. */
    method ReadKind() returns (ok: bool)
      requires Valid() && ridx >= 0 && err == None && Top(Stack()).kind == None
      modifies this, rstack
      ensures Valid() && Did(Step(old(Stack()), old(Rest())), ok, old(Stack()), old(Rest()))
      ensures ok ==> ridx >= 0 && Top(Stack()).kind.Some?
    {
      if len - pos < 1 {
        return false;
      }
      ghost var stack, rest := Stack(), Rest();
      var b := buf[pos];
      pos := pos + 1;
      var kind := KindOf(b);
      if kind == None {
        SetError(ProtocolByte(b));
        return false;
      }
      WithTopOK(Stack(), Top(Stack()).(kind := kind));
      rstack[ridx] := rstack[ridx].(kind := kind);
      assert Stack() == WithTop(stack, Top(stack).(kind := kind));
      assert Rest() == rest[1..];
      ok := true;
    }

    method ProcessTyped() returns (ok: bool)
      requires Valid() && ridx >= 0 && err == None && Top(Stack()).kind.Some?
      modifies this, rstack
      ensures Valid() && Did(Step(old(Stack()), old(Rest())), ok, old(Stack()), old(Rest()))
    {
      match rstack[ridx].kind.value
      case StringItem => ok := ProcessBulkItem();
      case ArrayItem => ok := ProcessMultiBulkItem();
      case _ => ok := ProcessLineItem(rstack[ridx].kind.value);
    }

    /** What the reading so far has come to, given what it was to come to. */
    ghost predicate Leads(ok: bool, goal: Drained)
      reads this, rstack
    {
      if err.Some? then !ok && goal == Drained([], [ROOT], [], err)
      else if ok && ridx == -1 then reply.Some? && goal == Prepend(reply, Drain([ROOT], Rest()))
      else ridx >= 0 && goal == Drain(Stack(), Rest()) && (!ok ==> Step(Stack(), Rest()).Stuck?)
    }

    method ProcessItem() returns (ok: bool)
      requires Valid() && ridx >= 0 && err == None
      modifies this, rstack
      ensures Valid() && Leads(ok, Drain(old(Stack()), old(Rest()))) && (ok ==> |Rest()| < |old(Rest())|)
    {
      if rstack[ridx].kind == None {
        ok := ReadKind();
        if !ok {
          return;
        }
      }
      ok := ProcessTyped();
    }

    method Feed(bytes: seq<Byte>) returns (ok: bool)
      requires Settled()
      modifies this`buf, this`len
      ensures Settled() && ok == err.None? && Stack() == old(Stack())
      ensures Rest() == if ok then old(Rest()) + bytes else old(Rest())
    {
      if err.Some? {
        return false;
      }
      assert (buf + bytes)[pos..] == buf[pos..] + bytes;
      buf := buf + bytes;
      len := |buf|;
      ok := true;
    }

    /** The next reply, if the bytes fed so far hold one. */
    method GetReply() returns (ok: bool, r: Option<Reply>)
      requires Settled()
      modifies this, rstack
      ensures Settled() && ok == err.None? && (old(err).Some? ==> err == old(err) && r == None)
      ensures old(err).None? ==> Gives(Drain(old(Stack()), old(Rest())), r, Stack(), Rest(), err)
      ensures r.Some? ==> |Rest()| < |old(Rest())|
    {
      r := None;
      if err.Some? {
        return false, None;
      }
      if len == 0 {
        StuckAtNothing(Stack());
        return true, None;
      }
      ghost var goal := Drain(Stack(), Rest());
      Begin();
      ReadOn();
      if err.Some? {
        return false, None;
      }
      r := Emit(goal);
      ok := true;
    }

    /** Drops bytes that have been read, and hands out the reply if there is one. */
    method Emit(ghost goal: Drained) returns (r: Option<Reply>)
      requires Valid() && err == None && Leads(ridx == -1, goal)
      modifies this`buf, this`pos, this`len, this`reply
      ensures Settled() && Rest() == old(Rest()) && Gives(goal, r, Stack(), Rest(), err) && (r.Some? <==> ridx == -1)
    {
      Discard();
      r := None;
      if ridx == -1 {
        r := reply;
        reply := None;
      } else {
        StuckDrain(Stack(), Rest());
      }
    }

    method Begin()
      requires Valid() && err == None
      modifies this`ridx, rstack
      ensures Valid() && ridx >= 0 && Stack() == old(Stack())
    {
      if ridx == -1 {
        rstack[0] := ROOT;
        ridx := 0;
        assert rstack[..1] == [ROOT];
      }
    }

    /** Reads items until a reply is complete or no more can be read. */
    method ReadOn()
      requires Valid() && ridx >= 0 && err == None
      modifies this, rstack
      ensures Valid() && Leads(err.None? && ridx == -1, Drain(old(Stack()), old(Rest())))
      ensures ridx == -1 && err.None? ==> |Rest()| < |old(Rest())|
    {
      ghost var goal, n := Drain(Stack(), Rest()), |Rest()|;
      while ridx >= 0
        invariant Valid() && err.None? && Leads(true, goal)
        invariant |Rest()| <= n && (ridx == -1 ==> |Rest()| < n)
        decreases |Rest()|
      {
        var ok := ProcessItem();
        if !ok {
          break;
        }
      }
    }

    /** The reader is where reading came to. */
    ghost predicate IsAt(d: Drained)
      reads this, rstack
    {
      err == d.fault && Stack() == d.stack && Rest() == d.rest
    }

    /** Takes all the replies there are. */
    method DrainReplies() returns (replies: seq<Reply>)
      requires Settled() && err == None
      modifies this, rstack
      ensures Settled() && IsAt(Drain(old(Stack()), old(Rest()))) && replies == Drain(old(Stack()), old(Rest())).replies
    {
      replies := [];
      ghost var goal, left := Drain(Stack(), Rest()), Drain(Stack(), Rest());
      while true
        invariant Settled() && err == None && left == Drain(Stack(), Rest())
        invariant goal == left.(replies := replies + left.replies)
        decreases |Rest()|
      {
        var ok, r := GetReply();
        if !ok || r.None? {
          assert replies + [] == replies;
          break;
        }
        ghost var next := Drain(Stack(), Rest());
        Regroup(replies, [r.value], next.replies);
        replies, left := replies + [r.value], next;
      }
    }

    /** Feeds bytes and takes the replies they complete. */
    method FeedAndDrain(bytes: seq<Byte>, ghost d: Drained) returns (replies: seq<Reply>)
      requires Settled() && IsAt(d)
      modifies this, rstack
      ensures Settled() && IsAt(After(d, bytes)) && After(d, bytes).replies == d.replies + replies
    {
      ghost var e := After(d, bytes);
      assert d.fault.None? ==>
        e == Drain(d.stack, d.rest + bytes).(replies := d.replies + Drain(d.stack, d.rest + bytes).replies);
      var ok := Feed(bytes);
      if !ok {
        assert d.replies + [] == d.replies;
        return [];
      }
      assert Drain(Stack(), Rest()) == Drain(d.stack, d.rest + bytes);
      replies := DrainReplies();
    }

    /** Drops what has been read from the buffer, once that is much. */
    method Discard()
      requires Valid() && err == None
      modifies this`buf, this`pos, this`len
      ensures Valid() && Stack() == old(Stack()) && Rest() == old(Rest())
    {
      if pos >= 1024 {
        buf := buf[pos..];
        pos := 0;
        len := |buf|;
      }
    }
  }

  /** With the item of level r complete, the tasks up to there end as `goal`. */
  ghost predicate ComesTo(all: seq<Task>, r: nat, obj: Reply, goal: Finished) {
    r < |all| && StackOK(all[..r + 1]) && Finish(all[..r + 1], obj) == goal
  }

  lemma RootEnds(all: seq<Task>, obj: Reply, goal: Finished)
    requires ComesTo(all, 0, obj, goal)
    ensures goal == Finished([ROOT], Some(obj))
  {
  }

  lemma TopTwo(all: seq<Task>, r: nat, prv: Task, cur: Task, obj: Reply, goal: Finished)
    requires ComesTo(all, r, obj, goal) && 0 < r && cur == all[r] && prv == all[r - 1]
    ensures Inside(prv, cur)
  {
    assert all[..r + 1][r - 1] == prv && all[..r + 1][r] == cur;
  }

  lemma ArrayEnds(all: seq<Task>, r: nat, prv: Task, cur: Task, obj: Reply, goal: Finished)
    requires ComesTo(all, r, obj, goal) && 0 < r && cur == all[r] && prv == all[r - 1]
    requires cur.idx == prv.elements - 1
    ensures ComesTo(all, r - 1, Array(prv.elements, prv.items + [obj]), goal)
  {
    var s, t := all[..r + 1], all[..r];
    assert s[..r] == t && s[r - 1] == prv && s[r] == cur;
    assert forall i :: 0 <= i < r ==> t[i] == s[i];
  }

  lemma NextInArray(all: seq<Task>, r: nat, prv: Task, cur: Task, obj: Reply, goal: Finished)
    requires ComesTo(all, r, obj, goal) && 0 < r && cur == all[r] && prv == all[r - 1]
    requires cur.idx != prv.elements - 1
    ensures goal == Finished(all[..r - 1] + [prv.(items := prv.items + [obj]), Fresh(cur.idx + 1)], None)
  {
    assert all[..r + 1][..r - 1] == all[..r - 1];
  }

  /** What asking for a reply gives of what reading is to come to: a fault, a reply before
      the rest, or nothing yet. */
  ghost predicate Gives(goal: Drained, r: Option<Reply>, stack: seq<Task>, rest: seq<Byte>, fault: Option<Fault>) {
    if fault.Some? then r == None && goal == Drained([], [ROOT], [], fault)
    else if r.Some? then stack != [] && goal == Prepend(r, Drain(stack, rest))
    else goal == Drained([], stack, rest, None)
  }

  lemma StuckDrain(stack: seq<Task>, rest: seq<Byte>)
    requires stack != [] && Step(stack, rest).Stuck?
    ensures Drain(stack, rest) == Drained([], stack, rest, None)
    ensures !(Top(stack).kind == Some(ArrayItem) && |stack| == LEVELS)
  {
  }

  lemma StuckAtNothing(stack: seq<Task>)
    requires stack != [] && !(Top(stack).kind == Some(ArrayItem) && |stack| == LEVELS)
    ensures Drain(stack, []) == Drained([], stack, [], None)
  {
  }

  lemma NestOK(stack: seq<Task>, t: Task)
    requires StackOK(stack) && |stack| < LEVELS && Inside(Top(stack), t)
    ensures StackOK(stack + [t])
  {
    var r := stack + [t];
    forall i | 1 <= i < |r| ensures Inside(r[i - 1], r[i]) {
      if i < |stack| {
        assert Inside(stack[i - 1], stack[i]);
      }
    }
  }
}
