/** Lines of words, of single quotes, and lines that cannot be split; and the quotation of a
    string, byte by byte. */
module SdsWords {
  import opened Basics
  import opened SdsQuote

  // ---------- a quotation, byte by byte ----------

  /** A printable byte stands for itself, except quote and backslash; five control characters
      have a letter; any other byte is written in two hexadecimal digits. */
  lemma EscapeTable(b: Byte)
    ensures Escape(b) ==
      if b == 34 || b == 92 then [92, b]
      else if 32 <= b < 127 then [b]
      else if b == 7 then [92, 97] else if b == 8 then [92, 98] else if b == 9 then [92, 116]
      else if b == 10 then [92, 110] else if b == 13 then [92, 114]
      else [92, 120, HexDigit(b / 16), HexDigit(b % 16)]
  {
  }

  /** So a string of printable bytes without quotes and backslashes is only put in quotes. */
  lemma PlainRepr(s: seq<Byte>)
    requires forall b :: b in s ==> 32 <= b < 127 && b != 34 && b != 92
    ensures Repr(s) == [34] + s + [34]
  {
    PlainStays(s, 0);
    assert s[0..] == s;
  }

  lemma {:induction false} PlainStays(s: seq<Byte>, i: nat)
    requires i <= |s| && forall b :: b in s ==> 32 <= b < 127 && b != 34 && b != 92
    ensures EscapeAll(s[i..]) == s[i..]
    decreases |s| - i
  {
    if i < |s| {
      FromOn(s, i);
      PlainStays(s, i + 1);
      assert s[i] in s && Escape(s[i]) == [s[i]];
      assert s[i..] == [s[i]] + s[i + 1..];
    }
  }

  // ---------- words ----------

  /** A word has no blank, no quote of either kind, and no zero. */
  predicate IsWord(s: seq<Byte>) {
    s != [] && forall b :: b in s ==> b != 0 && !IsSpace(b) && b != 34 && b != 39
  }

  /** Words with a space between them. */
  function WordLine(words: seq<seq<Byte>>): (line: seq<Byte>) {
    if words == [] then []
    else if |words| == 1 then words[0]
    else words[0] + ([SPACE] + WordLine(words[1..]))
  }

  /** A word is read up to the space after it, or to the end. */
  lemma {:induction false} ReadsWord(line: seq<Byte>, p: nat, s: seq<Byte>, rest: seq<Byte>, text: seq<Byte>, q: nat)
    requires p <= |line| && line[p..] == s + rest && q == p + |s| && (s == [] || IsWord(s))
    requires rest == [] || rest[0] == SPACE
    ensures q <= |line| && line[q..] == rest
    ensures GetToken(line, p, Plain, text) == Token(if rest == [] then q else q + 1, text + s)
    decreases |s|
  {
    Past(line, p, s, rest, q);
    if s == [] {
      assert text + [] == text;
    } else {
      var c, t := s[0], s[1..];
      assert c in s && (forall b :: b in t ==> b in s);
      assert s + rest == [c] + (t + rest);
      PastOne(line, p, c, t + rest, p + 1);
      ReadsWord(line, p + 1, t, rest, text + [c], q);
      OneMore(text, s);
    }
  }

  lemma WordBegins(line: seq<Byte>, p: nat, s: seq<Byte>, rest: seq<Byte>)
    requires p <= |line| && line[p..] == s + rest && IsWord(s)
    ensures p < |line| && Peek(line, p) == s[0] && SkipBlanks(line, p) == p && Peek(line, p) != 0
  {
    assert line[p] == line[p..][0] == s[0] && s[0] in s;
  }

  lemma LastWord(line: seq<Byte>, p: nat, w: seq<Byte>)
    requires p <= |line| && line[p..] == w && IsWord(w)
    ensures SplitArgs(line, p) == Some([w])
  {
    var none: seq<Byte> := [];
    assert none + w == w && w + none == w;
    WordBegins(line, p, w, none);
    ReadsWord(line, p, w, none, none, p + |w|);
    SplitsNothing(line, p + |w|);
    assert [w] + [] == [w];
  }

  lemma FirstWord(line: seq<Byte>, p: nat, w: seq<Byte>, more: seq<Byte>, q: nat)
    requires p <= |line| && line[p..] == w + ([SPACE] + more) && IsWord(w) && q == p + |w| + 1
    ensures q <= |line| && line[q..] == more && SplitArgs(line, p) == Before([w], SplitArgs(line, q))
  {
    var none, rest: seq<Byte> := [], [SPACE] + more;
    WordBegins(line, p, w, rest);
    ReadsWord(line, p, w, rest, none, q - 1);
    PastOne(line, q - 1, SPACE, more, q);
    NoneBefore(w);
    SplitsToken(line, p, w, q);
  }

  lemma NoneBefore(w: seq<Byte>)
    ensures [] + w == w
  {
  }

  lemma SplitsToken(line: seq<Byte>, p: nat, w: seq<Byte>, q: nat)
    requires SkipBlanks(line, p) == p && Peek(line, p) != 0 && GetToken(line, p, Plain, []) == Token(q, w)
    ensures SplitArgs(line, p) == Before([w], SplitArgs(line, q))
  {
  }

  lemma {:induction false} SplitsWords(line: seq<Byte>, p: nat, words: seq<seq<Byte>>)
    requires words != [] && (forall w :: w in words ==> IsWord(w)) && p <= |line| && line[p..] == WordLine(words)
    ensures SplitArgs(line, p) == Some(words)
    decreases |words|
  {
    var w, q := words[0], p + |words[0]| + 1;
    assert w in words;
    if |words| == 1 {
      LastWord(line, p, w);
      assert words == [w];
    } else {
      FirstWord(line, p, w, WordLine(words[1..]), q);
      SplitsWords(line, q, words[1..]);
      FirstAndRest(words);
    }
  }

  /** Words joined by spaces split into themselves. */
  lemma WordsSplit(words: seq<seq<Byte>>)
    requires forall w :: w in words ==> IsWord(w)
    ensures SplitArgs(WordLine(words), 0) == Some(words)
  {
    var line := WordLine(words);
    assert line[0..] == line;
    if words == [] {
      SplitsNothing(line, 0);
    } else {
      SplitsWords(line, 0, words);
    }
  }

  // ---------- single quotes ----------

  /** Inside single quotes only the apostrophe is escaped. */
  function Apostrophes(s: seq<Byte>): (r: seq<Byte>) {
    if s == [] then [] else (if s[0] == 39 then [92, 39] else [s[0]]) + Apostrophes(s[1..])
  }

  function Single(s: seq<Byte>): seq<Byte> { [39] + Apostrophes(s) + [39] }

  /** What is left in the line when s has yet to be read. */
  function SingleTail(s: seq<Byte>): seq<Byte> { Apostrophes(s) + [39] }

  lemma SingleTailSteps(s: seq<Byte>)
    ensures s == [] ==> SingleTail(s) == [39]
    ensures s != [] ==> SingleTail(s) == (if s[0] == 39 then [92, 39] else [s[0]]) + SingleTail(s[1..])
    ensures SingleTail(s) != [] && (SingleTail(s)[0] == 39 <==> s == [])
  {
  }

  lemma SingleByte(line: seq<Byte>, p: nat, s: seq<Byte>, q: nat)
    requires p <= |line| && line[p..] == SingleTail(s) && s != [] && 0 !in s && !(s == [92])
    requires q == p + if s[0] == 39 then 2 else 1
    ensures Next(line, p, Mode.Single) == More(q, Mode.Single, [s[0]])
    ensures q <= |line| && line[q..] == SingleTail(s[1..])
  {
    SingleTailSteps(s);
    SingleTailSteps(s[1..]);
    var front := if s[0] == 39 then [92, 39] else [s[0]];
    Past(line, p, front, SingleTail(s[1..]), q);
    assert s[0] in s;
    if s[0] == 39 {
      assert Peek(line, p + 1) == line[p..][1] == 39;
    } else {
      assert s[0] == 92 ==> s[1..] != [];
      assert Peek(line, p + 1) == line[p..][1] == SingleTail(s[1..])[0];
    }
  }

  /** Reading ends well unless a backslash at the end takes the closing quote with it. */
  lemma {:induction false} ReadsSingle(line: seq<Byte>, p: nat, s: seq<Byte>, text: seq<Byte>)
    requires p <= |line| && line[p..] == SingleTail(s) && 0 !in s
    ensures GetToken(line, p, Mode.Single, text) ==
      if s != [] && s[|s| - 1] == 92 then Bad else Token(|line|, text + s)
    decreases |s|
  {
    SingleTailSteps(s);
    if s == [] {
      PastOne(line, p, 39, [], p + 1);
      assert text + [] == text;
    } else if s == [92] {
      assert line[p..] == [92] + [39];
      PastOne(line, p, 92, [39], p + 1);
      PastOne(line, p + 1, 39, [], p + 2);
    } else {
      var q := p + if s[0] == 39 then 2 else 1;
      SingleByte(line, p, s, q);
      ReadsSingle(line, q, s[1..], text + [s[0]]);
      OneMore(text, s);
    }
  }

  /** A string in single quotes splits into itself, except one that ends with a backslash: it
      does not split at all. */
  lemma SingleSplits(s: seq<Byte>)
    requires 0 !in s
    ensures SplitArgs(Single(s), 0) == if s != [] && s[|s| - 1] == 92 then None else Some([s])
  {
    var line := Single(s);
    assert line[0..] == [39] + SingleTail(s);
    PastOne(line, 0, 39, SingleTail(s), 1);
    var none: seq<Byte> := [];
    ReadsSingle(line, 1, s, none);
    assert none + none == none && none + s == s;
    SplitsNothing(line, |line|);
    assert [s] + [] == [s];
  }

  // ---------- lines that do not split ----------

  lemma BadToken(line: seq<Byte>)
    requires line != [] && line[0] == 34 && GetToken(line, 1, Double, []) == Bad
    ensures SplitArgs(line, 0) == None
  {
    var none: seq<Byte> := [];
    assert none + none == none;
    assert SkipBlanks(line, 0) == 0 && Next(line, 0, Plain) == More(1, Double, none);
  }

  /** After a closing quote there must be a blank or the end. */
  lemma QuoteMustEnd(s: seq<Byte>, b: Byte, rest: seq<Byte>)
    requires b != 0 && !IsSpace(b)
    ensures SplitArgs(Repr(s) + ([b] + rest), 0) == None
  {
    var line, tail := Repr(s) + ([b] + rest), Tail(s, [b] + rest);
    ReprParts(s, [b] + rest);
    assert line == [34] + tail && line[1..] == tail;
    NotClosed(line, 1, s, [b] + rest, []);
    BadToken(line);
  }

  /** A line without its closing quote does not split either. */
  lemma QuoteMustClose(s: seq<Byte>)
    ensures SplitArgs([34] + EscapeAll(s), 0) == None
  {
    var line := [34] + EscapeAll(s);
    assert line[1..] == EscapeAll(s);
    NeverCloses(line, 1, s, []);
    BadToken(line);
  }

  lemma {:induction false} NotClosed(line: seq<Byte>, p: nat, s: seq<Byte>, rest: seq<Byte>, text: seq<Byte>)
    requires p <= |line| && line[p..] == Tail(s, rest) && rest != [] && rest[0] != 0 && !IsSpace(rest[0])
    ensures GetToken(line, p, Double, text) == Bad
    decreases |s|
  {
    if s == [] {
      TailSteps(s, rest);
      PastOne(line, p, QUOTE, rest, p + 1);
    } else {
      var q := p + |Escape(s[0])|;
      ReadsFirst(line, p, s, rest, text, q);
      NotClosed(line, q, s[1..], rest, text + [s[0]]);
    }
  }

  lemma {:induction false} NeverCloses(line: seq<Byte>, p: nat, s: seq<Byte>, text: seq<Byte>)
    requires p <= |line| && line[p..] == EscapeAll(s)
    ensures GetToken(line, p, Double, text) == Bad
    decreases |s|
  {
    if s != [] {
      var q := p + |Escape(s[0])|;
      ReadsEscape(line, p, s[0], EscapeAll(s[1..]));
      Past(line, p, Escape(s[0]), EscapeAll(s[1..]), q);
      NeverCloses(line, q, s[1..], text + [s[0]]);
    }
  }

  /** A backslash inside double quotes: five letters stand for control characters, two
      hexadecimal digits in either case for their byte, and any other byte for itself. */
  lemma BackslashTable(line: seq<Byte>, p: nat, c: Byte)
    requires p + 1 < |line| && line[p] == 92 && line[p + 1] == c && c != 0
    ensures c == 120 && p + 3 < |line| && IsHexDigit(line[p + 2]) && IsHexDigit(line[p + 3]) ==>
      Next(line, p, Double) == More(p + 4, Double, [HexValue(line[p + 2]) * 16 + HexValue(line[p + 3])])
    ensures c != 120 ==> Next(line, p, Double) == More(p + 2, Double,
      [if c == 97 then 7 else if c == 98 then 8 else if c == 116 then 9 else if c == 110 then 10
       else if c == 114 then 13 else c])
  {
  }
}
