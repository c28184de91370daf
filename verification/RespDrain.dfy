/** What reading a byte stream comes to, and that neither its being cut into pieces nor
    what follows a reply matters to the replies read. */
module RespDrain {
  import opened Basics
  import opened Resp

  datatype Kind = ErrorItem | StatusItem | IntegerItem | StringItem | ArrayItem

  /** An item being read: its kind once known, its place in the array around it and, for an
      array, how many items it is to have and those read. */
  datatype Task = Task(kind: Option<Kind>, elements: int, idx: int, items: seq<Reply>)

  const ROOT := Task(None, -1, -1, [])
  const LEVELS: nat := 9

  datatype Fault = ProtocolByte(byte: Byte) | TooDeep

  /** Tasks from the outermost in; all but the last are arrays with items missing. */
  ghost predicate StackOK(stack: seq<Task>) {
    && 1 <= |stack| <= LEVELS && stack[0].idx == -1
    && forall i :: 1 <= i < |stack| ==> Inside(stack[i - 1], stack[i])
  }

  ghost predicate Inside(parent: Task, t: Task) {
    parent.kind == Some(ArrayItem) && 0 <= t.idx < parent.elements && |parent.items| == t.idx
  }

  function Fresh(idx: int): Task { Task(None, -1, idx, []) }

  datatype Finished = Finished(stack: seq<Task>, done: Option<Reply>)

  /** An item is complete: the next one of the array around it, or that array is complete. */
  function Finish(stack: seq<Task>, obj: Reply): (f: Finished)
    requires stack != []
    ensures f.stack != []
    decreases |stack|
  {
    var n := |stack|;
    if n == 1 then Finished([ROOT], Some(obj))
    else
      var prv, cur := stack[n - 2], stack[n - 1];
      if cur.idx == prv.elements - 1 then Finish(stack[..n - 1], Array(prv.elements, prv.items + [obj]))
      else Finished(stack[..n - 2] + [prv.(items := prv.items + [obj]), Fresh(cur.idx + 1)], None)
  }

  datatype Outcome = Stuck | Failed(fault: Fault) | Moved(stack: seq<Task>, n: nat, done: Option<Reply>)

  function KindOf(b: Byte): Option<Kind> {
    if b == MINUS then Some(ErrorItem)
    else if b == PLUS then Some(StatusItem)
    else if b == COLON then Some(IntegerItem)
    else if b == DOLLAR then Some(StringItem)
    else if b == STAR then Some(ArrayItem)
    else None
  }

  function Complete(stack: seq<Task>, obj: Reply, n: nat): Outcome
    requires stack != []
  {
    var f := Finish(stack, obj);
    Moved(f.stack, n, f.done)
  }

  function Top(stack: seq<Task>): Task
    requires stack != []
  {
    stack[|stack| - 1]
  }

  function WithTop(stack: seq<Task>, t: Task): (r: seq<Task>)
    requires stack != []
    ensures |r| == |stack|
  {
    stack[..|stack| - 1] + [t]
  }

  function StepKind(stack: seq<Task>, rest: seq<Byte>): Outcome
    requires stack != []
  {
    if rest == [] then Stuck
    else
      match KindOf(rest[0])
      case Some(kind) => Moved(WithTop(stack, Top(stack).(kind := Some(kind))), 1, None)
      case None => Failed(ProtocolByte(rest[0]))
  }

  function StepLine(stack: seq<Task>, kind: Kind, rest: seq<Byte>, nl: nat): Outcome
    requires stack != [] && nl <= |rest|
  {
    var line := rest[..nl];
    var obj := if kind == IntegerItem then Integer(ReadLong(rest)) else if kind == StatusItem then Status(line)
      else Error(line);
    Complete(stack, obj, nl + 2)
  }

  function StepBulk(stack: seq<Task>, rest: seq<Byte>, nl: nat): Outcome
    requires stack != [] && nl + 2 <= |rest|
  {
    var len := ReadLong(rest);
    if len < 0 then Complete(stack, Nil, nl + 2)
    else if nl + 2 + len + 2 <= |rest| then Complete(stack, String(rest[nl + 2..nl + 2 + len]), nl + 2 + len + 2)
    else Stuck
  }

  function StepArray(stack: seq<Task>, rest: seq<Byte>, nl: nat): Outcome
    requires stack != []
  {
    var n := ReadLong(rest);
    if n == -1 then Complete(stack, Nil, nl + 2)
    else if n > 0 then
      Moved(WithTop(stack, Task(Some(ArrayItem), n, Top(stack).idx, [])) + [Fresh(0)], nl + 2, None)
    else Complete(stack, Array(n, []), nl + 2)
  }

  /** The next thing the reader does with the bytes at hand. */
  function Step(stack: seq<Task>, rest: seq<Byte>): (o: Outcome)
    requires stack != []
    ensures o.Moved? ==> 0 < o.n <= |rest| && o.stack != []
  {
    match Top(stack).kind
    case None => StepKind(stack, rest)
    case Some(kind) =>
      if kind == ArrayItem && |stack| == LEVELS then Failed(TooDeep)
      else
        match Newline(rest, 0)
        case None => Stuck
        case Some(nl) =>
          if kind == StringItem then StepBulk(stack, rest, nl)
          else if kind == ArrayItem then StepArray(stack, rest, nl)
          else StepLine(stack, kind, rest, nl)
  }

  /** Everything that can be read. */
  datatype Drained = Drained(replies: seq<Reply>, stack: seq<Task>, rest: seq<Byte>, fault: Option<Fault>)

  function Prepend(done: Option<Reply>, d: Drained): Drained {
    if done.Some? then d.(replies := [done.value] + d.replies) else d
  }

  function Drain(stack: seq<Task>, rest: seq<Byte>): (d: Drained)
    requires stack != []
    ensures d.stack != []
    decreases |rest|
  {
    match Step(stack, rest)
    case Stuck => Drained([], stack, rest, None)
    case Failed(fault) => Drained([], [ROOT], [], Some(fault))
    case Moved(next, n, done) => Prepend(done, Drain(next, rest[n..]))
  }

  // ---------- the stack stays in order ----------

  lemma {:induction false} FinishOK(stack: seq<Task>, obj: Reply)
    requires StackOK(stack)
    ensures StackOK(Finish(stack, obj).stack) && Top(Finish(stack, obj).stack).kind == None
    ensures Finish(stack, obj).done.Some? ==> Finish(stack, obj).stack == [ROOT]
    decreases |stack|
  {
    var n := |stack|;
    if n > 1 {
      var prv, cur := stack[n - 2], stack[n - 1];
      assert Inside(prv, cur);
      if cur.idx == prv.elements - 1 {
        FinishOK(stack[..n - 1], Array(prv.elements, prv.items + [obj]));
      } else {
        var f := Finish(stack, obj).stack;
        forall i | 1 <= i < |f| ensures Inside(f[i - 1], f[i]) {
          if i < n - 1 {
            assert Inside(stack[i - 1], stack[i]);
          }
        }
      }
    }
  }

  lemma WithTopOK(stack: seq<Task>, t: Task)
    requires StackOK(stack) && t.idx == Top(stack).idx
    ensures StackOK(WithTop(stack, t))
  {
    var r := WithTop(stack, t);
    forall i | 1 <= i < |r| ensures Inside(r[i - 1], r[i]) {
      assert Inside(stack[i - 1], stack[i]);
    }
  }

  lemma StepOK(stack: seq<Task>, rest: seq<Byte>)
    requires StackOK(stack) && Step(stack, rest).Moved?
    ensures StackOK(Step(stack, rest).stack)
  {
    forall obj ensures StackOK(Finish(stack, obj).stack) { FinishOK(stack, obj); }
    forall t: Task | t.idx == Top(stack).idx ensures StackOK(WithTop(stack, t)) { WithTopOK(stack, t); }
  }

  // ---------- cutting the stream ----------

  lemma StepGrows(stack: seq<Task>, rest: seq<Byte>, more: seq<Byte>)
    requires stack != [] && !Step(stack, rest).Stuck?
    ensures Step(stack, rest + more) == Step(stack, rest)
  {
    if Top(stack).kind.Some? && !(Top(stack).kind.value == ArrayItem && |stack| == LEVELS) {
      var nl := Newline(rest, 0).value;
      NewlineGrows(rest, more);
      ReadLongGrows(rest, more, nl);
      assert (rest + more)[..nl] == rest[..nl];
      var len := ReadLong(rest);
      if 0 <= len && nl + 2 + len + 2 <= |rest| {
        assert (rest + more)[nl + 2..nl + 2 + len] == rest[nl + 2..nl + 2 + len];
      }
    }
  }

  function After(d: Drained, more: seq<Byte>): (e: Drained)
    requires d.stack != []
    ensures e.stack != []
  {
    if d.fault.Some? then d
    else
      var e := Drain(d.stack, d.rest + more);
      e.(replies := d.replies + e.replies)
  }

  lemma AfterPrepend(done: Option<Reply>, d: Drained, more: seq<Byte>)
    requires d.stack != []
    ensures After(Prepend(done, d), more) == Prepend(done, After(d, more))
  {
    if done.Some? && d.fault.None? {
      var e := Drain(d.stack, d.rest + more);
      assert ([done.value] + d.replies) + e.replies == [done.value] + (d.replies + e.replies);
    }
  }

  /** Reading one piece and then another is reading both. */
  lemma {:induction false} DrainCut(stack: seq<Task>, a: seq<Byte>, b: seq<Byte>)
    requires stack != []
    ensures Drain(stack, a + b) == After(Drain(stack, a), b)
    decreases |a|
  {
    var o := Step(stack, a);
    if !o.Stuck? {
      StepGrows(stack, a, b);
    }
    if o.Moved? {
      assert (a + b)[o.n..] == a[o.n..] + b;
      DrainCut(o.stack, a[o.n..], b);
      AfterPrepend(o.done, Drain(o.stack, a[o.n..]), b);
    } else if o.Stuck? {
      assert [] + Drain(stack, a + b).replies == Drain(stack, a + b).replies;
    }
  }

  function Concat(pieces: seq<seq<Byte>>): seq<Byte> {
    if pieces == [] then [] else Concat(pieces[..|pieces| - 1]) + pieces[|pieces| - 1]
  }

  /** A new reader fed piece after piece, and drained after each. */
  function Feeds(pieces: seq<seq<Byte>>): (d: Drained)
    ensures d.stack != []
  {
    if pieces == [] then Drained([], [ROOT], [], None)
    else After(Feeds(pieces[..|pieces| - 1]), pieces[|pieces| - 1])
  }

  /** However a stream is cut into pieces, the replies, the fault if any, and what is left
      to read are those of the whole stream read at once. */
  lemma {:induction false} CuttingDoesNotMatter(pieces: seq<seq<Byte>>)
    ensures Feeds(pieces) == Drain([ROOT], Concat(pieces))
  {
    if pieces != [] {
      var before := pieces[..|pieces| - 1];
      CuttingDoesNotMatter(before);
      DrainCut([ROOT], Concat(before), pieces[|pieces| - 1]);
    }
  }

  // ---------- reading what was written ----------

  /** The reader goes on after an item. */
  function Then(f: Finished, rest: seq<Byte>): Drained
    requires f.stack != []
  {
    Prepend(f.done, Drain(f.stack, rest))
  }

  lemma ReadsKind(stack: seq<Task>, mark: Byte, rest: seq<Byte>)
    requires stack != [] && Top(stack).kind == None && KindOf(mark).Some?
    ensures Drain(stack, [mark] + rest) == Drain(WithTop(stack, Top(stack).(kind := KindOf(mark))), rest)
  {
    assert ([mark] + rest)[1..] == rest;
  }

  /** What is around an item, not what it is, says where reading goes on. */
  lemma FinishSame(stack: seq<Task>, t: Task, obj: Reply)
    requires stack != [] && t.idx == Top(stack).idx
    ensures Finish(WithTop(stack, t), obj) == Finish(stack, obj)
  {
    var r, n := WithTop(stack, t), |stack|;
    if n > 1 {
      assert r[..n - 1] == stack[..n - 1] && r[..n - 2] == stack[..n - 2];
    }
  }

  /** An item of known kind that the bytes complete. */
  lemma ReadsItem(stack: seq<Task>, mark: Byte, tail: seq<Byte>, obj: Reply, n: nat)
    requires stack != [] && Top(stack).kind == None && KindOf(mark).Some? && 0 < n <= |tail|
    requires var s := WithTop(stack, Top(stack).(kind := KindOf(mark))); Step(s, tail) == Complete(s, obj, n)
    ensures Drain(stack, [mark] + tail) == Then(Finish(stack, obj), tail[n..])
  {
    ReadsKind(stack, mark, tail);
    FinishSame(stack, Top(stack).(kind := KindOf(mark)), obj);
  }

  lemma ReadsLine(stack: seq<Task>, mark: Byte, s: seq<Byte>, obj: Reply, rest: seq<Byte>)
    requires stack != [] && Top(stack).kind == None && OneLine(s)
    requires || (mark == MINUS && obj == Error(s)) || (mark == PLUS && obj == Status(s))
             || (mark == COLON && obj.Integer? && s == Decimal(obj.integer))
    ensures Drain(stack, Line(mark, s) + rest) == Then(Finish(stack, obj), rest)
  {
    var tail := s + CRLF + rest;
    assert Line(mark, s) + rest == [mark] + tail;
    LineEnds(s, rest);
    if mark == COLON {
      ReadLongOfDecimal(obj.integer, rest);
    }
    ReadsItem(stack, mark, tail, obj, |s| + 2);
  }

  lemma ReadsNil(stack: seq<Task>, rest: seq<Byte>)
    requires stack != [] && Top(stack).kind == None
    ensures Drain(stack, Encode(Nil) + rest) == Then(Finish(stack, Nil), rest)
  {
    var s := Decimal(-1);
    assert Encode(Nil) + rest == [DOLLAR] + (s + CRLF + rest);
    DecimalIsLine(-1);
    LineEnds(s, rest);
    ReadLongOfDecimal(-1, rest);
    ReadsItem(stack, DOLLAR, s + CRLF + rest, Nil, |s| + 2);
  }

  lemma StringParts(str: seq<Byte>, s: seq<Byte>, rest: seq<Byte>)
    ensures var tail := s + CRLF + (str + CRLF + rest);
      && Line(DOLLAR, s) + str + CRLF + rest == [DOLLAR] + tail
      && tail[|s| + 2..|s| + 2 + |str|] == str && tail[|s| + 2 + |str| + 2..] == rest
  {
  }

  lemma ReadsString(stack: seq<Task>, str: seq<Byte>, rest: seq<Byte>)
    requires stack != [] && Top(stack).kind == None
    ensures Drain(stack, Encode(String(str)) + rest) == Then(Finish(stack, String(str)), rest)
  {
    var s := Decimal(|str|);
    var tail := s + CRLF + (str + CRLF + rest);
    StringParts(str, s, rest);
    DecimalIsLine(|str|);
    LineEnds(s, str + CRLF + rest);
    ReadLongOfDecimal(|str|, str + CRLF + rest);
    ReadsItem(stack, DOLLAR, tail, String(str), |s| + 2 + |str| + 2);
  }

  lemma ReadsArrayHead(stack: seq<Task>, n: int, rest: seq<Byte>)
    requires stack != [] && Top(stack).kind == None && |stack| < LEVELS && n >= 0
    ensures var top := Task(Some(ArrayItem), n, Top(stack).idx, []);
      Drain(stack, Line(STAR, Decimal(n)) + rest) ==
      if n == 0 then Then(Finish(stack, Array(0, [])), rest) else Drain(WithTop(stack, top) + [Fresh(0)], rest)
  {
    var s := Decimal(n);
    var tail := s + CRLF + rest;
    assert Line(STAR, s) + rest == [STAR] + tail;
    ReadsKind(stack, STAR, tail);
    DecimalIsLine(n);
    LineEnds(s, rest);
    ReadLongOfDecimal(n, rest);
    var mid := Top(stack).(kind := KindOf(STAR));
    FinishSame(stack, mid, Array(0, []));
    assert WithTop(WithTop(stack, mid), Task(Some(ArrayItem), n, Top(stack).idx, [])) ==
           WithTop(stack, Task(Some(ArrayItem), n, Top(stack).idx, []));
  }

  /** A length under zero: of a string it means no string, */
  lemma ReadsNoString(stack: seq<Task>, n: int, rest: seq<Byte>)
    requires stack != [] && Top(stack).kind == None && n < 0
    ensures Drain(stack, Line(DOLLAR, Decimal(n)) + rest) == Then(Finish(stack, Nil), rest)
  {
    var s := Decimal(n);
    assert Line(DOLLAR, s) + rest == [DOLLAR] + (s + CRLF + rest);
    DecimalIsLine(n);
    LineEnds(s, rest);
    ReadLongOfDecimal(n, rest);
    ReadsItem(stack, DOLLAR, s + CRLF + rest, Nil, |s| + 2);
  }

  /** and of an array, -1 means no array, and any other an array without items. */
  lemma ReadsNoArray(stack: seq<Task>, n: int, rest: seq<Byte>, obj: Reply)
    requires stack != [] && Top(stack).kind == None && n < 0 && |stack| < LEVELS
    requires obj == if n == -1 then Nil else Array(n, [])
    ensures Drain(stack, Line(STAR, Decimal(n)) + rest) == Then(Finish(stack, obj), rest)
  {
    var s := Decimal(n);
    var tail := s + CRLF + rest;
    assert Line(STAR, s) + rest == [STAR] + tail;
    ReadsKind(stack, STAR, tail);
    DecimalIsLine(n);
    LineEnds(s, rest);
    ReadLongOfDecimal(n, rest);
    FinishSame(stack, Top(stack).(kind := KindOf(STAR)), obj);
  }

  /** The null array of the protocol, in bytes, at any level down to the seventh. */
  lemma ReadsNullArray(stack: seq<Task>, rest: seq<Byte>)
    requires stack != [] && Top(stack).kind == None && |stack| < 9
    ensures Drain(stack, [42, 45, 49, 13, 10] + rest) == Then(Finish(stack, Nil), rest)
  {
    assert Digits(1) == [49];
    assert Line(STAR, Decimal(-1)) == [42, 45, 49, 13, 10];
    ReadsNoArray(stack, -1, rest, Nil);
  }

  /** A reply begins with one of five bytes; any other is the fault that names it. */
  lemma ReadsUnknown(stack: seq<Task>, b: Byte, rest: seq<Byte>)
    requires stack != [] && Top(stack).kind == None && b !in {43, 45, 58, 36, 42}
    ensures Drain(stack, [b] + rest) == Drained([], [ROOT], [], Some(ProtocolByte(b)))
  {
  }

  /** An integer may have a plus sign; */
  lemma ReadsPlus(stack: seq<Task>, n: nat, rest: seq<Byte>)
    requires stack != [] && Top(stack).kind == None
    ensures Drain(stack, Line(COLON, [43] + Decimal(n)) + rest) == Then(Finish(stack, Integer(n)), rest)
  {
    var t := [43] + Decimal(n);
    var tail := t + CRLF + rest;
    assert Line(COLON, t) + rest == [COLON] + tail;
    PlusReads(n, rest);
    LineEnds(t, rest);
    ReadsItem(stack, COLON, tail, Integer(n), |t| + 2);
  }

  /** one with a byte that is no digit reads as -1. */
  lemma ReadsOddInteger(stack: seq<Task>, s: seq<Byte>, i: nat, rest: seq<Byte>)
    requires stack != [] && Top(stack).kind == None
    requires OneLine(s) && CR !in s && 0 < i < |s| && !(48 <= s[i] < 58)
    ensures Drain(stack, Line(COLON, s) + rest) == Then(Finish(stack, Integer(-1)), rest)
  {
    var tail := s + CRLF + rest;
    assert Line(COLON, s) + rest == [COLON] + tail;
    LineEnds(s, rest);
    NoNumber(s, i, rest);
    ReadsItem(stack, COLON, tail, Integer(-1), |s| + 2);
  }

  /** A reply read at some level: all of it is read, and reading goes on. */
  lemma {:induction false} ReadsReply(stack: seq<Task>, r: Reply, rest: seq<Byte>)
    requires stack != [] && Top(stack).kind == None && Sendable(r) && |stack| - 1 + Depth(r) < LEVELS
    ensures Drain(stack, Encode(r) + rest) == Then(Finish(stack, r), rest)
    decreases Size(r), 0
  {
    match r
    case Error(s) => ReadsLine(stack, MINUS, s, r, rest);
    case Status(s) => ReadsLine(stack, PLUS, s, r, rest);
    case Integer(n) => DecimalIsLine(n); ReadsLine(stack, COLON, Decimal(n), r, rest);
    case String(s) => ReadsString(stack, s, rest);
    case Nil => ReadsNil(stack, rest);
    case Array(n, items) =>
      assert Encode(r) + rest == Line(STAR, Decimal(n)) + (EncodeItems(items) + rest);
      ReadsArrayHead(stack, n, EncodeItems(items) + rest);
      if n == 0 {
        assert EncodeItems(items) + rest == rest;
      } else {
        ReadsItems(stack, r, 0, rest);
      }
  }

  /** The stack while item k of an array is to be read. */
  function Within(stack: seq<Task>, r: Reply, k: nat): (s: seq<Task>)
    requires stack != [] && r.Array? && k < |r.items|
    ensures |s| == |stack| + 1 && Top(s) == Fresh(k)
  {
    WithTop(stack, Task(Some(ArrayItem), r.elements, Top(stack).idx, r.items[..k])) + [Fresh(k)]
  }

  lemma {:induction false} DepthAt(items: seq<Reply>, k: nat)
    requires k < |items|
    ensures Depth(items[k]) <= DepthItems(items)
  {
    if k > 0 {
      DepthAt(items[1..], k - 1);
    }
  }

  lemma FinishItem(stack: seq<Task>, r: Reply, k: nat)
    requires stack != [] && r.Array? && r.elements == |r.items| && k < |r.items|
    ensures Finish(Within(stack, r, k), r.items[k]) ==
            if k + 1 == |r.items| then Finish(stack, r) else Finished(Within(stack, r, k + 1), None)
  {
    var s, top := Within(stack, r, k), Task(Some(ArrayItem), r.elements, Top(stack).idx, r.items[..k]);
    assert r.items[..k] + [r.items[k]] == r.items[..k + 1];
    if k + 1 == |r.items| {
      assert s[..|s| - 1] == WithTop(stack, top);
      assert r.items[..k + 1] == r.items;
      FinishSame(stack, top, r);
    } else {
      assert s[..|s| - 2] == stack[..|stack| - 1];
    }
  }

  lemma {:induction false} ReadsItems(stack: seq<Task>, r: Reply, k: nat, rest: seq<Byte>)
    requires stack != [] && r.Array? && Sendable(r) && k < |r.items| && |stack| - 1 + Depth(r) < LEVELS
    ensures Drain(Within(stack, r, k), EncodeItems(r.items[k..]) + rest) == Then(Finish(stack, r), rest)
    decreases SizeItems(r.items[k..]), 1
  {
    var left := r.items[k..];
    assert left[0] == r.items[k] && left[1..] == r.items[k + 1..];
    DepthAt(r.items, k);
    var after := EncodeItems(left[1..]) + rest;
    assert EncodeItems(left) + rest == Encode(left[0]) + after;
    ReadsReply(Within(stack, r, k), left[0], after);
    FinishItem(stack, r, k);
    if k + 1 < |r.items| {
      ReadsItems(stack, r, k + 1, rest);
    } else {
      assert after == rest;
    }
  }

  const TOO_DEEP := Drained([], [ROOT], [], Some(TooDeep))

  /** An array nested too deep is a fault, wherever in the reply it is. */
  lemma {:induction false} DeepReply(stack: seq<Task>, r: Reply, rest: seq<Byte>)
    requires 1 <= |stack| <= LEVELS && Top(stack).kind == None && Sendable(r) && |stack| - 1 + Depth(r) >= LEVELS
    ensures Drain(stack, Encode(r) + rest) == TOO_DEEP
    decreases Size(r), 0
  {
    var body := EncodeItems(r.items) + rest;
    assert Encode(r) + rest == Line(STAR, Decimal(r.elements)) + body;
    if |stack| == LEVELS {
      assert Line(STAR, Decimal(r.elements)) + body == [STAR] + (Decimal(r.elements) + CRLF + body);
      ReadsKind(stack, STAR, Decimal(r.elements) + CRLF + body);
    } else {
      ReadsArrayHead(stack, r.elements, body);
      DeepItems(stack, r, 0, rest);
    }
  }

  lemma {:induction false} DeepItems(stack: seq<Task>, r: Reply, k: nat, rest: seq<Byte>)
    requires 1 <= |stack| < LEVELS && r.Array? && Sendable(r) && k < |r.items|
    requires |stack| + DepthItems(r.items[k..]) >= LEVELS
    ensures Drain(Within(stack, r, k), EncodeItems(r.items[k..]) + rest) == TOO_DEEP
    decreases SizeItems(r.items[k..]), 1
  {
    var left := r.items[k..];
    assert left[0] == r.items[k] && left[1..] == r.items[k + 1..];
    var after := EncodeItems(left[1..]) + rest;
    assert EncodeItems(left) + rest == Encode(left[0]) + after;
    if |stack| + Depth(left[0]) >= LEVELS {
      DeepReply(Within(stack, r, k), left[0], after);
    } else {
      ReadsReply(Within(stack, r, k), left[0], after);
      FinishItem(stack, r, k);
      DeepItems(stack, r, k + 1, rest);
    }
  }

  /** A reply is read as it was written, and what follows it as if it came first, exactly
      if its arrays are nested no deeper than the reader has levels for. */
  lemma ReaderUndoesEncode(r: Reply, rest: seq<Byte>)
    requires Sendable(r)
    ensures Depth(r) <= 8 <==> Drain([ROOT], Encode(r) + rest) == Prepend(Some(r), Drain([ROOT], rest))
    ensures Depth(r) >= 9 ==> Drain([ROOT], Encode(r) + rest) == TOO_DEEP
  {
    if Depth(r) < LEVELS {
      ReadsReply([ROOT], r, rest);
    } else {
      DeepReply([ROOT], r, rest);
    }
  }
}
