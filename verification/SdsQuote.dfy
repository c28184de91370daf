/** Strings quoted for people to read, and lines of quoted strings split again. */
module SdsQuote {
  import opened Basics
  import opened Resp

  const BEL: Byte := 7
  const BS: Byte := 8
  const TAB: Byte := 9
  const SPACE: Byte := 32
  const QUOTE: Byte := 34
  const APOSTROPHE: Byte := 39
  const BACKSLASH: Byte := 92

  /** What the C locale takes to be printable, and to be space. */
  predicate IsPrint(b: Byte) { 32 <= b < 127 }
  predicate IsSpace(b: Byte) { b == 32 || 9 <= b <= 13 }

  // ---------- quoting ----------

  /** The letter that stands for a control character after a backslash; 0 for none. */
  function LetterOf(b: Byte): Byte {
    if b == LF then 110 else if b == CR then 114 else if b == TAB then 116 else if b == BEL then 97
      else if b == BS then 98 else 0
  }

  function Escape(b: Byte): (s: seq<Byte>)
    ensures |s| > 0 && 0 !in s
  {
    if b == BACKSLASH || b == QUOTE then [BACKSLASH, b]
    else if LetterOf(b) != 0 then [BACKSLASH, LetterOf(b)]
    else if IsPrint(b) then [b]
    else [BACKSLASH, 120, HexDigit(b / 16), HexDigit(b % 16)]
  }

  function EscapeAll(s: seq<Byte>): (r: seq<Byte>) {
    if s == [] then [] else Escape(s[0]) + EscapeAll(s[1..])
  }

  function Repr(s: seq<Byte>): seq<Byte> { [QUOTE] + EscapeAll(s) + [QUOTE] }

  lemma {:induction false} EscapeAllAdd(s: seq<Byte>, b: Byte)
    ensures EscapeAll(s + [b]) == EscapeAll(s) + Escape(b)
  {
    if s == [] {
      assert [b][1..] == [];
    } else {
      assert (s + [b])[1..] == s[1..] + [b];
      EscapeAllAdd(s[1..], b);
    }
  }

  /** Appends a quoted string. */
  method CatRepr(to: seq<Byte>, p: seq<Byte>) returns (s: seq<Byte>)
    ensures s == to + Repr(p)
  {
    s := to + [QUOTE];
    for i := 0 to |p|
      invariant s == to + ([QUOTE] + EscapeAll(p[..i]))
    {
      var c := p[i];
      EscapeAllAdd(p[..i], c);
      assert p[..i + 1] == p[..i] + [c];
      var e;
      if c == BACKSLASH || c == QUOTE {
        e := [BACKSLASH, c];
      } else if LetterOf(c) != 0 {
        e := [BACKSLASH, LetterOf(c)];
      } else if IsPrint(c) {
        e := [c];
      } else {
        e := [BACKSLASH, 120, HexDigit(c / 16), HexDigit(c % 16)];
      }
      s := s + e;
      Regroup([QUOTE], EscapeAll(p[..i]), Escape(c));
      Regroup(to, [QUOTE] + EscapeAll(p[..i]), Escape(c));
    }
    assert p[..|p|] == p;
    Regroup(to, [QUOTE] + EscapeAll(p), [QUOTE]);
    s := s + [QUOTE];
  }

  // ---------- splitting ----------

  /** The byte at p; a zero ends the line. */
  function Peek(line: seq<Byte>, p: nat): Byte { if p < |line| then line[p] else 0 }

  function SkipBlanks(line: seq<Byte>, p: nat): (q: nat)
    ensures q >= p && !IsSpace(Peek(line, q)) && (q > p ==> q <= |line|)
    decreases |line| - p
  {
    if IsSpace(Peek(line, p)) then SkipBlanks(line, p + 1) else p
  }

  datatype Mode = Plain | Double | Single

  datatype Token = Token(next: nat, text: seq<Byte>) | Bad

  function Unescape(c: Byte): Byte {
    if c == 110 then LF else if c == 114 then CR else if c == 116 then TAB else if c == 98 then BS
      else if c == 97 then BEL else c
  }

  predicate HexEscape(line: seq<Byte>, p: nat) {
    Peek(line, p) == BACKSLASH && Peek(line, p + 1) == 120 && IsHexDigit(Peek(line, p + 2)) &&
      IsHexDigit(Peek(line, p + 3))
  }

  function HexByte(line: seq<Byte>, p: nat): Byte { HexValue(Peek(line, p + 2)) * 16 + HexValue(Peek(line, p + 3)) }

  /** A closing quote stands before a space or at the end. */
  predicate Closes(line: seq<Byte>, p: nat) { Peek(line, p + 1) == 0 || IsSpace(Peek(line, p + 1)) }

  /** One byte of a line, or an escape, in a mode: what it adds, how far it goes, and the
      mode after it. */
  datatype Piece = More(next: nat, mode: Mode, add: seq<Byte>) | End(next: nat) | Wrong

  function Next(line: seq<Byte>, p: nat, mode: Mode): (r: Piece)
    ensures r.More? ==> p < r.next <= |line|
    ensures r.End? ==> p <= r.next && (p <= |line| ==> r.next <= |line|) && (Peek(line, p) != 0 ==> r.next == p + 1)
  {
    var c := Peek(line, p);
    match mode
    case Double =>
      if HexEscape(line, p) then More(p + 4, Double, [HexByte(line, p)])
      else if c == BACKSLASH && Peek(line, p + 1) != 0 then More(p + 2, Double, [Unescape(Peek(line, p + 1))])
      else if c == QUOTE then if Closes(line, p) then End(p + 1) else Wrong
      else if c == 0 then Wrong
      else More(p + 1, Double, [c])
    case Single =>
      if c == BACKSLASH && Peek(line, p + 1) == APOSTROPHE then More(p + 2, Single, [APOSTROPHE])
      else if c == APOSTROPHE then if Closes(line, p) then End(p + 1) else Wrong
      else if c == 0 then Wrong
      else More(p + 1, Single, [c])
    case Plain =>
      if c == SPACE || c == LF || c == CR || c == TAB || c == 0 then End(if c == 0 then p else p + 1)
      else if c == QUOTE then More(p + 1, Double, [])
      else if c == APOSTROPHE then More(p + 1, Single, [])
      else More(p + 1, Plain, [c])
  }

  function GetToken(line: seq<Byte>, p: nat, mode: Mode, text: seq<Byte>): (t: Token)
    ensures t.Token? ==> t.next >= p && (Peek(line, p) != 0 ==> p < t.next <= |line|)
    decreases |line| - p
  {
    match Next(line, p, mode)
    case More(next, m, add) => GetToken(line, next, m, text + add)
    case End(next) => Token(next, text)
    case Wrong => Bad
  }

  function SplitArgs(line: seq<Byte>, p: nat): (args: Option<seq<seq<Byte>>>)
    decreases |line| - p
  {
    var q := SkipBlanks(line, p);
    if Peek(line, q) == 0 then Some([])
    else
      match GetToken(line, q, Plain, [])
      case Bad => None
      case Token(next, text) =>
        match SplitArgs(line, next)
        case None => None
        case Some(rest) => Some([text] + rest)
  }

  function Before(first: seq<seq<Byte>>, rest: Option<seq<seq<Byte>>>): Option<seq<seq<Byte>>> {
    if rest.None? then None else Some(first + rest.value)
  }

  lemma BeforeMore(a: seq<seq<Byte>>, b: seq<seq<Byte>>, rest: Option<seq<seq<Byte>>>)
    ensures Before(a, Before(b, rest)) == Before(a + b, rest) && Before([], rest) == rest
  {
    if rest.Some? {
      assert a + (b + rest.value) == (a + b) + rest.value;
      assert [] + rest.value == rest.value;
    }
  }

  /** The next byte of a line, or escape, inside double quotes. */
  method InDouble(line: seq<Byte>, p: nat) returns (r: Piece)
    ensures r == Next(line, p, Double)
  {
    var c := Peek(line, p);
    if c == BACKSLASH && Peek(line, p + 1) == 120 && IsHexDigit(Peek(line, p + 2)) && IsHexDigit(Peek(line, p + 3)) {
      r := More(p + 4, Double, [HexValue(Peek(line, p + 2)) * 16 + HexValue(Peek(line, p + 3))]);
    } else if c == BACKSLASH && Peek(line, p + 1) != 0 {
      r := More(p + 2, Double, [Unescape(Peek(line, p + 1))]);
    } else if c == QUOTE {
      if Peek(line, p + 1) != 0 && !IsSpace(Peek(line, p + 1)) {
        return Wrong;
      }
      r := End(p + 1);
    } else if c == 0 {
      r := Wrong;
    } else {
      r := More(p + 1, Double, [c]);
    }
  }

  /** The same inside single quotes, */
  method InSingle(line: seq<Byte>, p: nat) returns (r: Piece)
    ensures r == Next(line, p, Single)
  {
    var c := Peek(line, p);
    if c == BACKSLASH && Peek(line, p + 1) == APOSTROPHE {
      r := More(p + 2, Single, [APOSTROPHE]);
    } else if c == APOSTROPHE {
      if Peek(line, p + 1) != 0 && !IsSpace(Peek(line, p + 1)) {
        return Wrong;
      }
      r := End(p + 1);
    } else if c == 0 {
      r := Wrong;
    } else {
      r := More(p + 1, Single, [c]);
    }
  }

  /** and outside quotes. */
  method InPlain(line: seq<Byte>, p: nat) returns (r: Piece)
    ensures r == Next(line, p, Plain)
  {
    var c := Peek(line, p);
    if c == SPACE || c == LF || c == CR || c == TAB || c == 0 {
      r := End(if c == 0 then p else p + 1);
    } else if c == QUOTE {
      r := More(p + 1, Double, []);
    } else if c == APOSTROPHE {
      r := More(p + 1, Single, []);
    } else {
      r := More(p + 1, Plain, [c]);
    }
  }

  method OneToken(line: seq<Byte>, start: nat) returns (t: Token)
    ensures t == GetToken(line, start, Plain, [])
  {
    var p, inq, insq, current: seq<Byte> := start, false, false, [];
    while true
      invariant GetToken(line, p, if inq then Double else if insq then Single else Plain, current) ==
        GetToken(line, start, Plain, [])
      decreases |line| - p
    {
      var piece;
      if inq {
        piece := InDouble(line, p);
      } else if insq {
        piece := InSingle(line, p);
      } else {
        piece := InPlain(line, p);
      }
      match piece
      case Wrong => return Bad;
      case End(next) => return Token(next, current);
      case More(next, mode, add) =>
        p, current, inq, insq := next, current + add, mode == Double, mode == Single;
    }
    t := Bad;
  }

  method SplitArgsLine(line: seq<Byte>) returns (args: Option<seq<seq<Byte>>>)
    ensures args == SplitArgs(line, 0)
  {
    var p, vector: seq<seq<Byte>> := 0, [];
    ghost var goal := SplitArgs(line, 0);
    BeforeMore([], [], goal);
    while true
      invariant goal == Before(vector, SplitArgs(line, p))
      decreases |line| - p
    {
      while IsSpace(Peek(line, p))
        invariant goal == Before(vector, SplitArgs(line, p))
        decreases |line| - p
      {
        p := p + 1;
      }
      if Peek(line, p) == 0 {
        assert vector + [] == vector;
        return Some(vector);
      }
      var t := OneToken(line, p);
      if t.Bad? {
        return None;
      }
      BeforeMore(vector, [t.text], SplitArgs(line, t.next));
      vector := vector + [t.text];
      p := t.next;
    }
  }

  // ---------- splitting undoes quoting ----------

  /** Strings quoted, with a space between them. */
  function Line(args: seq<seq<Byte>>): (s: seq<Byte>) {
    if args == [] then []
    else if |args| == 1 then Repr(args[0])
    else Repr(args[0]) + [SPACE] + Line(args[1..])
  }

  lemma Past(line: seq<Byte>, p: nat, front: seq<Byte>, rest: seq<Byte>, q: nat)
    requires p <= |line| && line[p..] == front + rest && q == p + |front|
    ensures q <= |line| && line[q..] == rest && Peek(line, q) == (if rest == [] then 0 else rest[0])
    ensures front != [] ==> Peek(line, p) == front[0]
  {
    assert line[q..] == line[p..][|front|..];
  }

  lemma PastOne(line: seq<Byte>, p: nat, b: Byte, rest: seq<Byte>, q: nat)
    requires p <= |line| && line[p..] == [b] + rest && q == p + 1
    ensures Peek(line, p) == b && q <= |line| && line[q..] == rest &&
      Peek(line, q) == (if rest == [] then 0 else rest[0])
  {
    Past(line, p, [b], rest, q);
  }

  /** An escaped byte is read as that byte. */
  lemma ReadsEscape(line: seq<Byte>, p: nat, b: Byte, rest: seq<Byte>)
    requires p <= |line| && line[p..] == Escape(b) + rest
    ensures Next(line, p, Double) == More(p + |Escape(b)|, Double, [b])
  {
    var e := Escape(b);
    assert Peek(line, p) == line[p..][0] == e[0];
    if |e| == 2 {
      assert Peek(line, p + 1) == line[p..][1] == e[1];
    } else if |e| == 4 {
      assert Peek(line, p + 1) == line[p..][1] == e[1];
      assert Peek(line, p + 2) == line[p..][2] == e[2];
      assert Peek(line, p + 3) == line[p..][3] == e[3];
    }
  }

  /** What follows in a line where s, quoted, has yet to be read. */
  function Tail(s: seq<Byte>, rest: seq<Byte>): seq<Byte> { EscapeAll(s) + ([QUOTE] + rest) }

  lemma TailSteps(s: seq<Byte>, rest: seq<Byte>)
    ensures s == [] ==> Tail(s, rest) == [QUOTE] + rest
    ensures s != [] ==> Tail(s, rest) == Escape(s[0]) + Tail(s[1..], rest)
  {
  }

  lemma ReadsClosing(line: seq<Byte>, p: nat, rest: seq<Byte>, text: seq<Byte>)
    requires p <= |line| && line[p..] == [QUOTE] + rest && (rest == [] || IsSpace(rest[0]))
    ensures GetToken(line, p, Double, text) == Token(p + 1, text)
  {
    PastOne(line, p, QUOTE, rest, p + 1);
  }

  lemma ReadsFirst(line: seq<Byte>, p: nat, s: seq<Byte>, rest: seq<Byte>, text: seq<Byte>, q: nat)
    requires p <= |line| && line[p..] == Tail(s, rest) && s != [] && q == p + |Escape(s[0])|
    ensures GetToken(line, p, Double, text) == GetToken(line, q, Double, text + [s[0]])
    ensures q <= |line| && line[q..] == Tail(s[1..], rest)
  {
    TailSteps(s, rest);
    ReadsEscape(line, p, s[0], Tail(s[1..], rest));
    Past(line, p, Escape(s[0]), Tail(s[1..], rest), q);
  }

  lemma {:induction false} ReadsEscaped(line: seq<Byte>, p: nat, s: seq<Byte>, rest: seq<Byte>, text: seq<Byte>, n: nat)
    requires p <= |line| && line[p..] == Tail(s, rest) && (rest == [] || IsSpace(rest[0])) && n == |EscapeAll(s)|
    ensures GetToken(line, p, Double, text) == Token(p + n + 1, text + s)
    decreases |s|
  {
    if s == [] {
      TailSteps(s, rest);
      ReadsClosing(line, p, rest, text);
      assert text + [] == text;
    } else {
      var q, m := p + |Escape(s[0])|, n - |Escape(s[0])|;
      ReadsFirst(line, p, s, rest, text, q);
      ReadsEscaped(line, q, s[1..], rest, text + [s[0]], m);
      OneMore(text, s);
    }
  }

  lemma OneMore<T>(text: seq<T>, s: seq<T>)
    requires s != []
    ensures (text + [s[0]]) + s[1..] == text + s
  {
  }

  lemma ReprParts(s: seq<Byte>, rest: seq<Byte>)
    ensures Repr(s) + rest == [QUOTE] + Tail(s, rest)
  {
  }

  lemma ReadsRepr(line: seq<Byte>, p: nat, s: seq<Byte>, rest: seq<Byte>, n: nat)
    requires p <= |line| && line[p..] == Repr(s) + rest && (rest == [] || IsSpace(rest[0])) && n == |Repr(s)|
    ensures Peek(line, p) == QUOTE && p + n <= |line| && line[p + n..] == rest
    ensures GetToken(line, p, Plain, []) == Token(p + n, s)
  {
    Past(line, p, Repr(s), rest, p + n);
    ReprParts(s, rest);
    PastOne(line, p, QUOTE, Tail(s, rest), p + 1);
    var none: seq<Byte> := [];
    ReadsEscaped(line, p + 1, s, rest, none, n - 2);
    assert none + s == s && none + none == none;
  }

  lemma SplitSkips(line: seq<Byte>, p: nat)
    requires IsSpace(Peek(line, p))
    ensures SplitArgs(line, p) == SplitArgs(line, p + 1)
  {
  }

  lemma SplitsOne(line: seq<Byte>, p: nat, s: seq<Byte>, q: nat)
    requires Peek(line, p) == QUOTE && p < q && GetToken(line, p, Plain, []) == Token(q, s)
    ensures SplitArgs(line, p) == Before([s], SplitArgs(line, q))
  {
  }

  lemma SplitsLast(line: seq<Byte>, p: nat, s: seq<Byte>)
    requires p <= |line| && line[p..] == Repr(s)
    ensures SplitArgs(line, p) == Some([s])
  {
    var n := |Repr(s)|;
    assert Repr(s) + [] == Repr(s);
    ReadsRepr(line, p, s, [], n);
    SplitsOne(line, p, s, p + n);
    assert SplitArgs(line, p + n) == Some([]) && [s] + [] == [s];
  }

  /** A quoted string, the space after it, and then the rest of the line. */
  lemma SplitsFirst(line: seq<Byte>, p: nat, s: seq<Byte>, more: seq<Byte>, q: nat)
    requires p <= |line| && line[p..] == Repr(s) + ([SPACE] + more) && q == p + |Repr(s)|
    ensures q + 1 <= |line| && line[q + 1..] == more
    ensures SplitArgs(line, p) == Before([s], SplitArgs(line, q + 1))
  {
    ReadsRepr(line, p, s, [SPACE] + more, |Repr(s)|);
    PastOne(line, q, SPACE, more, q + 1);
    SplitSkips(line, q);
    SplitsOne(line, p, s, q);
  }

  lemma LineSteps(args: seq<seq<Byte>>)
    requires |args| > 1
    ensures Line(args) == Repr(args[0]) + ([SPACE] + Line(args[1..]))
  {
  }

  lemma SplitsNothing(line: seq<Byte>, p: nat)
    requires p == |line|
    ensures SplitArgs(line, p) == Some([])
  {
  }

  /** The first argument of several, given that the rest of the line splits. */
  lemma SplitsOn(line: seq<Byte>, p: nat, args: seq<seq<Byte>>, q: nat, y: nat)
    requires |args| > 1 && p <= |line| && line[p..] == Line(args) && q == p + |Repr(args[0])| && y == q + 1
    ensures y <= |line| && line[y..] == Line(args[1..])
    ensures SplitArgs(line, p) == Before([args[0]], SplitArgs(line, y))
  {
    LineSteps(args);
    SplitsFirst(line, p, args[0], Line(args[1..]), q);
  }

  lemma {:induction false} SplitsLine(line: seq<Byte>, p: nat, args: seq<seq<Byte>>)
    requires args != [] && p <= |line| && line[p..] == Line(args)
    ensures SplitArgs(line, p) == Some(args)
    decreases |args|
  {
    if |args| == 1 {
      OneArg(args);
      SplitsLast(line, p, args[0]);
    } else {
      var q := p + |Repr(args[0])|;
      var y := q + 1;
      SplitsOn(line, p, args, q, y);
      SplitsLine(line, y, args[1..]);
      FirstAndRest(args);
    }
  }

  lemma OneArg(args: seq<seq<Byte>>)
    requires |args| == 1
    ensures args == [args[0]] && Line(args) == Repr(args[0])
  {
  }

  lemma FirstAndRest(args: seq<seq<Byte>>)
    requires args != []
    ensures Before([args[0]], Some(args[1..])) == Some(args)
  {
    assert [args[0]] + args[1..] == args;
  }

  /** Any list of strings, empty ones and any bytes included, is got back from its line. */
  lemma SplitUndoesQuote(args: seq<seq<Byte>>)
    ensures SplitArgs(Line(args), 0) == Some(args)
  {
    assert Line(args)[0..] == Line(args);
    if args == [] {
      SplitsNothing(Line(args), 0);
    } else {
      SplitsLine(Line(args), 0, args);
    }
  }

  /** The line has no zero in it, so that its end is where it seems. */
  lemma {:induction false} LineIsText(args: seq<seq<Byte>>)
    ensures 0 !in Line(args)
  {
    if args != [] {
      EscapedIsText(args[0]);
      LineIsText(args[1..]);
    }
  }

  lemma {:induction false} EscapedIsText(s: seq<Byte>)
    ensures 0 !in EscapeAll(s)
  {
    if s != [] {
      EscapedIsText(s[1..]);
    }
  }
}
