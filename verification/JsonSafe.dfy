/** What a quoted string does and does not hold, and how its escapes are written and read. */
module JsonSafe {
  import opened Basics
  import opened Json

  // ---------- the encoding ----------

  function Bits(b: nat, size: nat): nat
    requires size > 0
  {
    b % size
  }

  /** A character's number is the bits of its bytes (section 3 of RFC 3629). */
  lemma Utf8Bits(u: Bytes)
    requires IsChar(u)
    ensures |u| == 1 ==> Decode(u) == Some(u[0])
    ensures |u| == 2 ==> Decode(u) == Some(64 * Bits(u[0], 32) + Bits(u[1], 64))
    ensures |u| == 3 ==> Decode(u) == Some(4096 * Bits(u[0], 16) + 64 * Bits(u[1], 64) + Bits(u[2], 64))
  {
  }

  lemma Utf8Bits4(u: Bytes)
    requires IsChar(u) && |u| == 4
    ensures Decode(u) ==
      Some(262144 * Bits(u[0], 8) + 4096 * Bits(u[1], 64) + 64 * Bits(u[2], 64) + Bits(u[3], 64))
  {
    LowBits(u[1]);
    LowBits(u[2]);
    LowBits(u[3]);
    assert Bits(u[0], 8) == u[0] - 0xf0;
  }

  lemma LowBits(b: Byte)
    requires IsCont(b)
    ensures Bits(b, 64) == b - 0x80
  {
  }

  lemma Twice64(v: nat)
    ensures v / 0x1000 == v / 0x40 / 0x40
  {
  }

  lemma SixBitDigits(v: nat, p: nat, q: nat, r: nat)
    requires r == v / 0x40 && q == v / 0x1000 && p == v / 0x40000
    ensures v == 0x40 * r + v % 0x40 && r == 0x40 * q + r % 0x40 && q == 0x40 * p + q % 0x40
  {
    Twice64(v);
    Twice64(r);
  }

  lemma Unichar4(v: nat)
    requires 0xffff < v <= 0x10ffff
    ensures IsChar(Unichar(v)) && Decode(Unichar(v)) == Some(v)
  {
    SixBitDigits(v, v / 0x40000, v / 0x1000, v / 0x40);
  }

  /** Every number but those of surrogates has a character, which decodes to it. */
  lemma UnicharIsChar(v: nat)
    requires v <= 0x10ffff && !(0xD800 <= v <= 0xDFFF)
    ensures IsChar(Unichar(v)) && Decode(Unichar(v)) == Some(v)
  {
    if v > 0xffff {
      Unichar4(v);
    } else if v > 0x7ff {
      SixBitDigits(v, v / 0x40000, v / 0x1000, v / 0x40);
    }
  }

  // ---------- the characters that are escaped ----------

  lemma Front(u: Bytes, s: Bytes)
    requires u <= s
    ensures forall i :: 0 <= i < |u| ==> ByteOr0(s, i) == u[i]
  {
  }

  lemma OneMatches(v: nat, s: Bytes)
    requires Special(v) && v < 0x80 && [v] <= s
    ensures MatchLen(s, 0) == 1
  {
  }

  lemma TwoMatch(v: nat, s: Bytes) returns (pass: nat)
    requires Special(v) && 0x80 <= v < 0x800 && Unichar(v) <= s
    ensures 0 < pass < PASSES && MatchLen(s, pass) == 2
  {
    Front(Unichar(v), s);
    pass := if v < 0x600 then 1 else if v < 0x70f then 2 else 3;
  }

  lemma ThreeMatch(v: nat, s: Bytes) returns (pass: nat)
    requires Special(v) && 0x800 <= v && Unichar(v) <= s
    ensures 0 < pass < PASSES && MatchLen(s, pass) == 3
  {
    Front(Unichar(v), s);
    pass := if v < 0x200c then 4 else if v < 0x2060 then 5 else if v < 0xfeff then 6 else if v < 0xfff0 then 7 else 8;
  }

  /** One of them, wherever it stands, is matched in one of the passes, and whole. */
  lemma SpecialMatches(v: nat, s: Bytes) returns (pass: nat)
    requires Special(v) && Unichar(v) <= s
    ensures pass < PASSES && MatchLen(s, pass) == |Unichar(v)| && (pass == 0 <==> v < 0x80)
  {
    pass := 0;
    if v < 0x80 {
      OneMatches(v, s);
    } else if v < 0x800 {
      pass := TwoMatch(v, s);
    } else {
      pass := ThreeMatch(v, s);
    }
  }

  /** A match is one of them. */
  lemma MatchIsSpecial(s: Bytes, pass: nat) returns (v: nat)
    requires MatchLen(s, pass) > 0
    ensures Special(v) && Unichar(v) <= s && |Unichar(v)| == MatchLen(s, pass)
  {
    MatchIsChar(s, pass);
    var u := s[..MatchLen(s, pass)];
    DecodeThenUnichar(u);
    v := Decode(u).value;
  }

  /** None of them begins at j. */
  ghost predicate PlainAt(s: Bytes, j: nat)
    requires j <= |s|
  {
    forall v :: Special(v) ==> !(Unichar(v) <= s[j..])
  }

  /** No pass finds anything exactly where none of them stands. */
  lemma PlainIff(s: Bytes, j: nat)
    requires j <= |s|
    ensures PlainAt(s, j) <==> forall pass: nat | pass < PASSES :: MatchLen(s[j..], pass) == 0
  {
    if pass: nat :| pass < PASSES && MatchLen(s[j..], pass) > 0 {
      var v := MatchIsSpecial(s[j..], pass);
      assert !PlainAt(s, j);
    }
    if v :| Special(v) && Unichar(v) <= s[j..] {
      var pass := SpecialMatches(v, s[j..]);
    }
  }

  // ---------- no control byte in a quoted string ----------

  predicate Visible(s: Bytes) { forall i :: 0 <= i < |s| ==> 32 <= s[i] && s[i] != 127 }

  lemma HexIsVisible(n: nat)
    requires n < 16
    ensures 48 <= HexDigit(n) < 127
  {
  }

  lemma UEscapeIsVisible(v: nat)
    requires v <= 0xffff
    ensures Visible(UEscape(v)) && |UEscape(v)| == 6 && forall i :: 0 <= i < 6 ==> UEscape(v)[i] < 128
  {
    HexIsVisible(v / 4096);
    HexIsVisible(v / 256 % 16);
    HexIsVisible(v / 16 % 16);
    HexIsVisible(v % 16);
  }

  /** An escape is of visible ASCII bytes, and more of them than it stands for. */
  lemma EscapeIsVisible(u: Bytes)
    requires UnitOK(Escaped(u))
    ensures Visible(EscapeUtf8(u)) && |EscapeUtf8(u)| > |u|
    ensures EscapeUtf8(u)[0] == BACKSLASH && forall i :: 0 <= i < |EscapeUtf8(u)| ==> EscapeUtf8(u)[i] < 128
  {
    DecodeThenUnichar(u);
    UEscapeIsVisible(Decode(u).value);
  }

  lemma {:induction false} GsubVisible(s: Bytes, pass: nat)
    requires pass == 0 || Visible(s)
    ensures Visible(Gsub(s, pass))
    decreases |s|
  {
    if s != [] {
      var n := MatchLen(s, pass);
      if n > 0 {
        MatchIsChar(s, pass);
        EscapeIsVisible(s[..n]);
        GsubVisible(s[n..], pass);
      } else {
        GsubVisible(s[1..], pass);
      }
    }
  }

  lemma {:induction false} FsubsVisible(s: Bytes, pass: nat)
    requires Visible(s) && pass > 0
    ensures Visible(Fsubs(s, pass))
    decreases PASSES - pass
  {
    if pass < PASSES {
      FsubIsGsub(s, pass);
      GsubVisible(s, pass);
      FsubsVisible(Fsub(s, pass), pass + 1);
    }
  }

  // ---------- none of the other characters either ----------

  predicate Clean(s: Bytes, pass: nat) { forall j :: 0 <= j <= |s| ==> MatchLen(s[j..], pass) == 0 }

  /** A pass does not change what it leaves at the front. */
  lemma FrontStays(s: Bytes, pass: nat)
    requires pass > 0
    ensures Gsub(s, pass) != [] && Gsub(s, pass)[0] >= 128 ==>
      s != [] && MatchLen(s, pass) == 0 && Gsub(s, pass) == [s[0]] + Gsub(s[1..], pass)
  {
    if MatchLen(s, pass) > 0 {
      MatchIsChar(s, pass);
      EscapeIsVisible(s[..MatchLen(s, pass)]);
    }
  }

  /** What a later pass sees at the front of a text is what stood there before. */
  lemma SeesTheSame(s: Bytes, pass: nat, other: nat)
    requires pass > 0 && other > 0 && s != [] && MatchLen(s, pass) == 0
    ensures var g := [s[0]] + Gsub(s[1..], pass); MatchLen(g, other) == 0 || MatchLen(g, other) == MatchLen(s, other)
  {
    var g, h := [s[0]] + Gsub(s[1..], pass), Gsub(s[1..], pass);
    if MatchLen(g, other) > 0 {
      MatchIsHigh(g, other);
      FrontStays(s[1..], pass);
      if MatchLen(g, other) == 3 {
        FrontStays(s[2..], pass);
      }
    }
  }
  lemma CleanFrom(s: Bytes, n: nat, pass: nat)
    requires n <= |s| && Clean(s, pass)
    ensures Clean(s[n..], pass)
  {
    forall j | 0 <= j <= |s| - n ensures MatchLen(s[n..][j..], pass) == 0 {
      assert s[n..][j..] == s[n + j..];
    }
  }

  lemma CleanFirst(b: Byte, s: Bytes, pass: nat)
    requires Clean(s, pass) && MatchLen([b] + s, pass) == 0
    ensures Clean([b] + s, pass)
  {
    var t := [b] + s;
    forall j | 0 <= j <= |t| ensures MatchLen(t[j..], pass) == 0 {
      assert if j == 0 then t[j..] == t else t[j..] == s[j - 1..];
    }
  }

  lemma {:induction false} CleanAfter(e: Bytes, s: Bytes, pass: nat)
    requires pass > 0 && Clean(s, pass) && forall i :: 0 <= i < |e| ==> e[i] < 128
    ensures Clean(e + s, pass)
  {
    if e == [] {
      assert e + s == s;
    } else {
      CleanAfter(e[1..], s, pass);
      assert e + s == [e[0]] + (e[1..] + s);
      CleanFirst(e[0], e[1..] + s, pass);
    }
  }

  /** A pass leaves nothing of its own, and nothing of another's that there was not before. */
  lemma {:induction false} GsubCleans(s: Bytes, pass: nat, other: nat)
    requires pass > 0 && other > 0 && (other == pass || Clean(s, other))
    ensures Clean(Gsub(s, pass), other)
    decreases |s|
  {
    if s == [] {
      return;
    }
    var n := MatchLen(s, pass);
    var m := if n > 0 then n else 1;
    if other != pass {
      CleanFrom(s, m, other);
      assert s[0..] == s;
    }
    GsubCleans(s[m..], pass, other);
    if n > 0 {
      MatchIsChar(s, pass);
      EscapeIsVisible(s[..n]);
      CleanAfter(EscapeUtf8(s[..n]), Gsub(s[n..], pass), other);
    } else {
      SeesTheSame(s, pass, other);
      CleanFirst(s[0], Gsub(s[1..], pass), other);
    }
  }

  ghost predicate CleanUpTo(s: Bytes, n: nat) { forall pass: nat :: 0 < pass < n ==> Clean(s, pass) }

  lemma {:induction false} FsubsClean(s: Bytes, pass: nat)
    requires 0 < pass <= PASSES && CleanUpTo(s, pass)
    ensures CleanUpTo(Fsubs(s, pass), PASSES)
    decreases PASSES - pass
  {
    if pass < PASSES {
      FsubIsGsub(s, pass);
      forall other: nat | 0 < other < pass + 1 ensures Clean(Fsub(s, pass), other) {
        GsubCleans(s, pass, other);
      }
      FsubsClean(Fsub(s, pass), pass + 1);
    }
  }

  lemma LeadlessIsClean(s: Bytes)
    requires !HasLead(s)
    ensures CleanUpTo(s, PASSES)
  {
    forall pass: nat, j: nat | 0 < pass < PASSES && j <= |s| ensures MatchLen(s[j..], pass) == 0 {
      assert j < |s| ==> !IsLead(s[j]) && s[j..][0] == s[j];
    }
  }

  /** Inside its quotes. */
  function Quoted(s: Bytes): (t: Bytes)
    ensures QuoteString(s) == [QUOTE] + t + [QUOTE]
  {
    var v := Fsub(s, 0);
    if HasLead(v) then Fsubs(v, 1) else v
  }

  lemma QuotedIsClean(s: Bytes)
    ensures Visible(Quoted(s)) && CleanUpTo(Quoted(s), PASSES)
  {
    FsubIsGsub(s, 0);
    GsubVisible(s, 0);
    var v := Fsub(s, 0);
    if HasLead(v) {
      FsubsVisible(v, 1);
      FsubsClean(v, 1);
    } else {
      LeadlessIsClean(v);
    }
  }

  /** A quoted string holds no control byte, and from U+007F on none of the characters to
      be escaped. */
  lemma QuotedIsSafe(s: Bytes, j: nat, v: nat)
    requires j < |QuoteString(s)| && Special(v) && v != QUOTE && v != BACKSLASH
    ensures !(Unichar(v) <= QuoteString(s)[j..])
  {
    QuotedIsClean(s);
    var t, q := Quoted(s), QuoteString(s);
    if Unichar(v) <= q[j..] {
      assert q[j] == Unichar(v)[0];
      var pass := SpecialMatches(v, q[j..]);
      if pass > 0 {
        CleanAfter([QUOTE], t, pass);
        CleanEnd([QUOTE] + t, pass);
      }
    }
  }

  lemma CleanEnd(s: Bytes, pass: nat)
    requires pass > 0 && Clean(s, pass)
    ensures Clean(s + [QUOTE], pass)
  {
    var t := s + [QUOTE];
    forall j | 0 <= j <= |t| ensures MatchLen(t[j..], pass) == 0 {
      assert j <= |s| ==> t[j..] == s[j..] + [QUOTE];
      assert j <= |s| ==> MatchLen(s[j..], pass) == 0;
    }
  }

  // ---------- what is left as it is ----------

  /** A pass that finds something makes the text longer; one that does not leaves it. */
  lemma {:induction false} GsubGrows(s: Bytes, pass: nat)
    ensures |Gsub(s, pass)| >= |s| && (Gsub(s, pass) == s <==> Clean(s, pass))
    ensures !Clean(s, pass) ==> |Gsub(s, pass)| > |s|
    decreases |s|
  {
    if s != [] {
      var n := MatchLen(s, pass);
      assert s[0..] == s;
      if n > 0 {
        MatchIsChar(s, pass);
        EscapeIsVisible(s[..n]);
        GsubGrows(s[n..], pass);
        assert !Clean(s, pass);
      } else {
        GsubGrows(s[1..], pass);
        assert s == [s[0]] + s[1..];
        if Clean(s, pass) {
          CleanFrom(s, 1, pass);
        }
        if Clean(s[1..], pass) {
          CleanFirst(s[0], s[1..], pass);
        }
      }
    }
  }

  lemma {:induction false} FsubsGrows(s: Bytes, pass: nat)
    ensures |Fsubs(s, pass)| >= |s|
    ensures Fsubs(s, pass) == s <==> forall p: nat :: pass <= p < PASSES ==> Clean(s, p)
    ensures Fsubs(s, pass) != s ==> |Fsubs(s, pass)| > |s|
    decreases PASSES - pass
  {
    if pass < PASSES {
      FsubIsGsub(s, pass);
      GsubGrows(s, pass);
      FsubsGrows(Fsub(s, pass), pass + 1);
    }
  }

  lemma NothingPasses(s: Bytes)
    ensures Quoted(s) == s <==> Clean(s, 0) && CleanUpTo(s, PASSES)
  {
    FsubIsGsub(s, 0);
    GsubGrows(s, 0);
    var v := Fsub(s, 0);
    FsubsGrows(v, 1);
    if !HasLead(v) {
      LeadlessIsClean(v);
    }
  }

  lemma CleanIsPlain(s: Bytes)
    ensures Clean(s, 0) && CleanUpTo(s, PASSES) <==> forall j :: 0 <= j <= |s| ==> PlainAt(s, j)
  {
    forall j | 0 <= j <= |s|
      ensures PlainAt(s, j) <==> forall pass: nat | pass < PASSES :: MatchLen(s[j..], pass) == 0
    {
      PlainIff(s, j);
    }
    if forall j :: 0 <= j <= |s| ==> PlainAt(s, j) {
      forall pass: nat, j | pass < PASSES && 0 <= j <= |s| ensures MatchLen(s[j..], pass) == 0 {
        assert PlainAt(s, j);
      }
    }
    if Clean(s, 0) && CleanUpTo(s, PASSES) {
      forall pass: nat, j | pass < PASSES && 0 <= j <= |s| ensures MatchLen(s[j..], pass) == 0 {
        assert pass == 0 || Clean(s, pass);
      }
    }
  }

  lemma SameInQuotes(s: Bytes, t: Bytes)
    ensures [34] + s + [34] == [34] + t + [34] <==> s == t
  {
    var x, y := [34] + s + [34], [34] + t + [34];
    assert |x| >= 2 && x[1..|x| - 1] == s && y[1..|y| - 1] == t;
  }

  /** A string is quoted as it is exactly if none of the characters to be escaped begins
      anywhere in it. */
  lemma QuotedAsIs(s: Bytes)
    ensures QuoteString(s) == [34] + s + [34] <==> forall j :: 0 <= j <= |s| ==> PlainAt(s, j)
  {
    NothingPasses(s);
    CleanIsPlain(s);
    SameInQuotes(Quoted(s), s);
  }

  // ---------- how escapes are written and read ----------

  /** Some characters have an escape of their own, both ways; the others have a number. */
  lemma ShortEscapes(b: Byte)
    ensures b == 34 || b == 92 ==> EscapeUtf8([b]) == [92, b] && EscapeChar(b) == b
    ensures EscapeUtf8([8]) == [92, 98] && EscapeChar(98) == 8
    ensures EscapeUtf8([9]) == [92, 116] && EscapeChar(116) == 9
    ensures EscapeUtf8([10]) == [92, 110] && EscapeChar(110) == 10
    ensures EscapeUtf8([12]) == [92, 102] && EscapeChar(102) == 12
    ensures EscapeUtf8([13]) == [92, 114] && EscapeChar(114) == 13
    ensures b !in {98, 102, 110, 114, 116} ==> EscapeChar(b) == b
  {
  }

  /** The same digits, letters in either case. */
  predicate Alike(s: Bytes, t: Bytes) {
    |s| == |t| && forall i :: 0 <= i < |s| ==> SameDigit(s[i], t[i])
  }

  predicate SameDigit(a: Byte, b: Byte) {
    a == b || (65 <= a <= 70 && b == a + 32) || (65 <= b <= 70 && a == b + 32)
  }

  lemma {:induction false} AlikeFolds(s: Bytes, t: Bytes)
    requires Alike(s, t)
    ensures HexFold(s) == HexFold(t)
  {
    if s != [] {
      AlikeFolds(s[..|s| - 1], t[..|t| - 1]);
      assert SameDigit(s[|s| - 1], t[|s| - 1]);
    }
  }

  lemma AlikeNumbers(s: Bytes, t: Bytes)
    requires Alike(s, t)
    ensures ToNumber(s) == ToNumber(t)
  {
    forall i | 0 <= i < |s| ensures IsHexDigit(s[i]) == IsHexDigit(t[i]) {
      assert SameDigit(s[i], t[i]);
    }
    AlikeFolds(s, t);
  }

  /** The case of the digits of an escape does not matter, and any character below the
      surrogates or above them may be written by its number. */
  lemma EitherCase(str: Bytes, p: nat, digits: Bytes, v: nat, rest: Bytes)
    requires v <= 0xffff && !(0xD800 <= v <= 0xDBFF) && Alike(digits, Hex4(v))
    requires p <= |str| && str[p..] == [92, 117] + digits + rest
    ensures ReadEscape(str, p) == Escape(Unichar(v), p + 6)
  {
    var e := [92, 117] + digits;
    SubAt(str, p, e, rest, 1, 2, p + 1, p + 2);
    SubAt(str, p, e, rest, 2, 6, p + 2, p + 6);
    assert e[1..2] == [LETTER_U] && e[2..6] == digits;
    AlikeNumbers(digits, Hex4(v));
    Hex4Reads(v);
  }

  lemma PairParts(str: Bytes, p: nat, a: Bytes, b: Bytes, rest: Bytes)
    requires |a| == |b| == 4 && p <= |str| && str[p..] == ([92, 117] + a + [92, 117] + b) + rest
    ensures Sub(str, p + 1, p + 2) == [117] && Sub(str, p + 2, p + 6) == a
    ensures Sub(str, p + 6, p + 8) == [92, 117] && Sub(str, p + 8, p + 12) == b
  {
    var e := [92, 117] + a + [92, 117] + b;
    SubAt(str, p, e, rest, 1, 2, p + 1, p + 2);
    SubAt(str, p, e, rest, 2, 6, p + 2, p + 6);
    SubAt(str, p, e, rest, 6, 8, p + 6, p + 8);
    SubAt(str, p, e, rest, 8, 12, p + 8, p + 12);
    assert e[1..2] == [117] && e[2..6] == a && e[6..8] == [92, 117] && e[8..12] == b;
  }

  /** And a pair of surrogates, in either case too, is one character (section 7 of RFC 8259). */
  lemma PairInEitherCase(str: Bytes, p: nat, a: Bytes, b: Bytes, x: nat, y: nat, rest: Bytes)
    requires x < 0x400 && y < 0x400 && Alike(a, Hex4(0xD800 + x)) && Alike(b, Hex4(0xDC00 + y))
    requires p <= |str| && str[p..] == ([92, 117] + a + [92, 117] + b) + rest
    ensures ReadEscape(str, p) == Escape(Unichar(0x10000 + 1024 * x + y), p + 12)
  {
    PairParts(str, p, a, b, rest);
    var high, low := 0xD800 + x, 0xDC00 + y;
    AlikeNumbers(a, Hex4(high));
    AlikeNumbers(b, Hex4(low));
    Hex4Reads(high);
    Hex4Reads(low);
  }
  /** With a byte among the four that is no digit, there is no number and the "u" is meant. */
  lemma NoNumberNoEscape(str: Bytes, p: nat, i: nat)
    requires 2 <= i < 6 && p + i < |str| && str[p + 1] == 117
    requires var c := str[p + i]; !(48 <= c <= 57) && !(97 <= c <= 102) && !(65 <= c <= 70)
    ensures ReadEscape(str, p) == Escape([117], p + 2)
  {
    var digits := Sub(str, p + 2, p + 6);
    assert digits[i - 2] == str[p + i];
    assert !IsHexDigit(digits[i - 2]);
    assert Sub(str, p + 1, p + 2) == [LETTER_U];
  }
}
