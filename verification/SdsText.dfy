/** Strings cut at a separator and joined again, and numbers written into a buffer. */
module SdsText {
  import opened Basics
  import opened Resp

  // ---------- cutting and joining ----------

  predicate MatchAt(s: seq<Byte>, j: nat, sep: seq<Byte>) { j + |sep| <= |s| && s[j..j + |sep|] == sep }

  ghost predicate Contains(s: seq<Byte>, sep: seq<Byte>) { exists j: nat :: MatchAt(s, j, sep) }

  /** The pieces of a string from `start` on, where no separator begins before j. */
  function Split(s: seq<Byte>, sep: seq<Byte>, start: nat, j: nat): (pieces: seq<seq<Byte>>)
    requires sep != [] && start <= j && start <= |s|
    ensures pieces != []
    decreases |s| - j
  {
    if j + |sep| > |s| then [s[start..]]
    else if MatchAt(s, j, sep) then [s[start..j]] + Split(s, sep, j + |sep|, j + |sep|)
    else Split(s, sep, start, j + 1)
  }

  function Join(pieces: seq<seq<Byte>>, sep: seq<Byte>): seq<Byte> {
    if pieces == [] then []
    else if |pieces| == 1 then pieces[0]
    else pieces[0] + sep + Join(pieces[1..], sep)
  }

  /** The pieces of a string; none for the empty one, and no answer without a separator. */
  method SplitLen(s: seq<Byte>, sep: seq<Byte>) returns (tokens: Option<seq<seq<Byte>>>)
    ensures sep == [] ==> tokens == None
    ensures sep != [] ==> tokens == Some(if s == [] then [] else Split(s, sep, 0, 0))
  {
    if |sep| < 1 {
      return None;
    }
    var found: seq<seq<Byte>> := [];
    if |s| == 0 {
      return Some(found);
    }
    var start: nat, j := 0, 0;
    ghost var goal := Split(s, sep, 0, 0);
    assert [] + goal == goal;
    while j < |s| - (|sep| - 1)
      invariant 0 <= start <= j && start <= |s| && goal == found + Split(s, sep, start, j)
      decreases |s| - j
    {
      if s[j..j + |sep|] == sep {
        Regroup(found, [s[start..j]], Split(s, sep, j + |sep|, j + |sep|));
        found := found + [s[start..j]];
        start := j + |sep|;
        j := j + |sep| - 1;
      }
      j := j + 1;
    }
    found := found + [s[start..]];
    tokens := Some(found);
  }

  lemma {:induction false} JoinAdd(pieces: seq<seq<Byte>>, p: seq<Byte>, sep: seq<Byte>)
    ensures Join(pieces + [p], sep) == if pieces == [] then p else Join(pieces, sep) + sep + p
  {
    if |pieces| == 1 {
      assert (pieces + [p])[1..] == [p];
    } else if pieces != [] {
      assert (pieces + [p])[1..] == pieces[1..] + [p];
      JoinAdd(pieces[1..], p, sep);
      assert pieces[0] + sep + (Join(pieces[1..], sep) + sep + p) ==
        (pieces[0] + sep + Join(pieces[1..], sep)) + sep + p;
    }
  }

  method JoinSds(argv: seq<seq<Byte>>, sep: seq<Byte>) returns (join: seq<Byte>)
    ensures join == Join(argv, sep)
  {
    join := [];
    for j := 0 to |argv|
      invariant join == Join(argv[..j], sep) + (if 0 < j < |argv| then sep else [])
    {
      JoinAdd(argv[..j], argv[j], sep);
      assert argv[..j + 1] == argv[..j] + [argv[j]];
      join := join + argv[j];
      if j != |argv| - 1 {
        join := join + sep;
      }
    }
    assert argv[..|argv|] == argv;
  }

  lemma {:induction false} JoinSplit(s: seq<Byte>, sep: seq<Byte>, start: nat, j: nat)
    requires sep != [] && start <= j && start <= |s|
    ensures Join(Split(s, sep, start, j), sep) == s[start..]
    decreases |s| - j
  {
    if j + |sep| <= |s| {
      if MatchAt(s, j, sep) {
        var next := j + |sep|;
        JoinSplit(s, sep, next, next);
        assert Split(s, sep, start, j)[1..] == Split(s, sep, next, next);
        assert s[start..] == s[start..j] + s[j..next] + s[next..];
      } else {
        JoinSplit(s, sep, start, j + 1);
      }
    }
  }

  lemma {:induction false} PiecesApart(s: seq<Byte>, sep: seq<Byte>, start: nat, j: nat)
    requires sep != [] && start <= j && start <= |s|
    requires forall q: nat :: start <= q < j ==> !MatchAt(s, q, sep)
    ensures forall p :: p in Split(s, sep, start, j) ==> !Contains(p, sep)
    decreases |s| - j
  {
    if j + |sep| > |s| {
      NoMatchWithin(s, sep, start, |s|, j);
      assert s[start..|s|] == s[start..];
    } else if MatchAt(s, j, sep) {
      NoMatchWithin(s, sep, start, j, j);
      PiecesApart(s, sep, j + |sep|, j + |sep|);
    } else {
      PiecesApart(s, sep, start, j + 1);
    }
  }

  lemma NoMatchWithin(s: seq<Byte>, sep: seq<Byte>, start: nat, end: nat, j: nat)
    requires sep != [] && start <= end <= |s| && (end == j || (end == |s| && j + |sep| > |s|))
    requires forall q: nat :: start <= q < j ==> !MatchAt(s, q, sep)
    ensures !Contains(s[start..end], sep)
  {
    forall k: nat ensures !MatchAt(s[start..end], k, sep) {
      if k + |sep| <= end - start {
        SliceOfSlice(s, start, end, k, k + |sep|, start + k, start + k + |sep|);
        assert !MatchAt(s, start + k, sep);
      }
    }
  }

  lemma SliceOfSlice(s: seq<Byte>, start: nat, end: nat, a: nat, b: nat, p: nat, q: nat)
    requires start <= end <= |s| && a <= b <= end - start && p == start + a && q == start + b
    ensures s[start..end][a..b] == s[p..q]
  {
    forall i | 0 <= i < b - a ensures s[start..end][a..b][i] == s[p..q][i] {
      assert s[start..end][a + i] == s[p + i];
    }
  }

  /** Joined again, the pieces are the string, and none of them has the separator in it. */
  lemma SplitThenJoin(s: seq<Byte>, sep: seq<Byte>)
    requires sep != []
    ensures Join(Split(s, sep, 0, 0), sep) == s
    ensures forall p :: p in Split(s, sep, 0, 0) ==> !Contains(p, sep)
  {
    JoinSplit(s, sep, 0, 0);
    assert s[0..] == s;
    PiecesApart(s, sep, 0, 0);
  }

  lemma {:induction false} SplitSeeks(s: seq<Byte>, sep: seq<Byte>, start: nat, j: nat, k: nat)
    requires sep != [] && start <= j <= k && start <= |s| && forall q: nat :: j <= q < k ==> !MatchAt(s, q, sep)
    ensures MatchAt(s, k, sep) ==> Split(s, sep, start, j) == [s[start..k]] + Split(s, sep, k + |sep|, k + |sep|)
    ensures k >= |s| ==> Split(s, sep, start, j) == [s[start..]]
    decreases k - j
  {
    if j < k {
      SplitSeeks(s, sep, start, j + 1, k);
    }
  }

  lemma ShiftedMatch(s: seq<Byte>, u: seq<Byte>, sep: seq<Byte>, n: nat, j: nat, b: nat)
    requires n <= |s| && u == s[n..] && b == n + j
    ensures MatchAt(s, b, sep) == MatchAt(u, j, sep)
  {
    if b + |sep| <= |s| {
      assert s[n..|s|] == s[n..];
      SliceOfSlice(s, n, |s|, j, j + |sep|, b, b + |sep|);
    }
  }

  lemma ShiftedPiece(s: seq<Byte>, u: seq<Byte>, n: nat, start: nat, j: nat, a: nat, b: nat)
    requires n <= |s| && u == s[n..] && start <= |u| && a == n + start && b == n + j
    ensures u[start..] == s[a..] && (start <= j <= |u| ==> u[start..j] == s[a..b])
  {
    if start <= j <= |u| {
      assert s[n..|s|] == s[n..];
      SliceOfSlice(s, n, |s|, start, j, a, b);
    }
  }

  ghost predicate SameSplit(s: seq<Byte>, u: seq<Byte>, sep: seq<Byte>, n: nat, start: nat, j: nat)
    requires sep != [] && start <= j && start <= |u| && |s| == n + |u|
  {
    Split(s, sep, n + start, n + j) == Split(u, sep, start, j)
  }

  lemma CutAt(s: seq<Byte>, sep: seq<Byte>, start: nat, j: nat, i: nat)
    requires sep != [] && start <= j && i == j + |sep| && MatchAt(s, j, sep)
    ensures i <= |s| && Split(s, sep, start, j) == [s[start..j]] + Split(s, sep, i, i)
  {
  }

  lemma SameAtCut(s: seq<Byte>, u: seq<Byte>, sep: seq<Byte>, n: nat, start: nat, j: nat, i: nat)
    requires sep != [] && n <= |s| && u == s[n..] && start <= j && i == j + |sep| <= |u| && MatchAt(u, j, sep)
    requires SameSplit(s, u, sep, n, i, i)
    ensures SameSplit(s, u, sep, n, start, j)
  {
    var a, b := n + start, n + j;
    ShiftedMatch(s, u, sep, n, j, b);
    ShiftedPiece(s, u, n, start, j, a, b);
    CutAt(s, sep, a, b, n + i);
    CutAt(u, sep, start, j, i);
  }

  lemma {:induction false} SplitShift(s: seq<Byte>, u: seq<Byte>, sep: seq<Byte>, n: nat, start: nat, j: nat)
    requires sep != [] && n <= |s| && u == s[n..] && start <= j && start <= |u|
    ensures SameSplit(s, u, sep, n, start, j)
    decreases |s| - j
  {
    var a, b := n + start, n + j;
    if j + |sep| > |u| {
      ShiftedPiece(s, u, n, start, j, a, b);
    } else if MatchAt(u, j, sep) {
      SplitShift(s, u, sep, n, j + |sep|, j + |sep|);
      SameAtCut(s, u, sep, n, start, j, j + |sep|);
    } else {
      ShiftedMatch(s, u, sep, n, j, b);
      SplitShift(s, u, sep, n, start, j + 1);
      assert Split(s, sep, a, b) == Split(s, sep, a, b + 1);
    }
  }

  lemma MatchIsPrefix(s: seq<Byte>, j: nat, sep: seq<Byte>)
    requires j <= |s|
    ensures MatchAt(s, j, sep) <==> sep <= s[j..]
  {
    if sep <= s[j..] {
      SliceOfSlice(s, j, |s|, 0, |sep|, j, j + |sep|);
      assert s[j..|s|] == s[j..];
    }
  }

  lemma PartsOf(a: seq<Byte>, sep: seq<Byte>, b: seq<Byte>, s: seq<Byte>, k: nat, n: nat)
    requires s == a + sep + b && k == |a| && n == k + |sep|
    ensures MatchAt(s, k, sep) && s[0..k] == s[..k] == a && s[n..] == b
  {
    assert s[k..n] == sep;
  }

  /** The first cut is at the first separator, and the rest is cut like a string of its own; */
  lemma LeftmostCut(a: seq<Byte>, sep: seq<Byte>, b: seq<Byte>)
    requires sep != [] && forall q :: 0 <= q < |a| ==> !(sep <= (a + sep + b)[q..])
    ensures Split(a + sep + b, sep, 0, 0) == [a] + Split(b, sep, 0, 0)
  {
    var s, k := a + sep + b, |a|;
    forall q: nat | q < k ensures !MatchAt(s, q, sep) {
      MatchIsPrefix(s, q, sep);
    }
    var n := k + |sep|;
    PartsOf(a, sep, b, s, k, n);
    SplitSeeks(s, sep, 0, 0, k);
    CutOff(s, sep, k, n);
  }

  /** a string without a separator is its only piece. */
  lemma NoCut(s: seq<Byte>, sep: seq<Byte>)
    requires sep != [] && forall q :: 0 <= q < |s| ==> !(sep <= s[q..])
    ensures Split(s, sep, 0, 0) == [s]
  {
    forall q: nat | q < |s| ensures !MatchAt(s, q, sep) {
      MatchIsPrefix(s, q, sep);
    }
    SplitSeeks(s, sep, 0, 0, |s|);
    assert s[0..] == s;
  }

  lemma CutOff(s: seq<Byte>, sep: seq<Byte>, k: nat, n: nat)
    requires sep != [] && n == k + |sep| <= |s|
    ensures [s[0..k]] + Split(s, sep, n, n) == [s[..k]] + Split(s[n..], sep, 0, 0)
  {
    SplitShift(s, s[n..], sep, n, 0, 0);
  }

  // ---------- numbers ----------

  const LLSTR_SIZE: nat := 21

  function Reversed(s: seq<Byte>): (r: seq<Byte>)
    ensures |r| == |s| && forall i :: 0 <= i < |s| ==> r[i] == s[|s| - 1 - i]
  {
    seq(|s|, i requires 0 <= i < |s| => s[|s| - 1 - i])
  }

  lemma {:induction false} DigitsFit(n: nat, k: nat)
    requires k > 0 && n < Pow10(k)
    ensures |Digits(n)| <= k
  {
    if n >= 10 {
      DigitsFit(n / 10, k - 1);
    }
  }

  lemma Pow10Of20()
    ensures Pow10(19) == 10_000_000_000_000_000_000 && Pow10(20) == 100_000_000_000_000_000_000
  {
    assert Pow10(5) == 100_000;
    assert Pow10(10) == 10_000_000_000;
    assert Pow10(15) == 1_000_000_000_000_000;
  }

  /** Turns the first l bytes of a buffer around. */
  method TurnAround(s: array<Byte>, l: nat)
    requires l <= s.Length
    modifies s
    ensures s[..l] == Reversed(old(s[..l])) && s[l..] == old(s[l..])
  {
    var a: int, p: int := 0, l - 1;
    while a < p
      invariant 0 <= a <= p + 1 && a + p == l - 1
      invariant forall i :: 0 <= i < a ==> s[i] == old(s[l - 1 - i]) && s[l - 1 - i] == old(s[i])
      invariant forall i :: a <= i <= p ==> s[i] == old(s[i])
      invariant forall i :: l <= i < s.Length ==> s[i] == old(s[i])
    {
      s[a], s[p] := s[p], s[a];
      a, p := a + 1, p - 1;
    }
    forall i | 0 <= i < l ensures s[..l][i] == Reversed(old(s[..l]))[i] {
    }
  }

  /** Lays the digits of v down, the last first. */
  method PutDigits(s: array<Byte>, v: nat) returns (p: nat)
    requires |Digits(v)| < s.Length
    modifies s
    ensures p == |Digits(v)| && Reversed(s[..p]) == Digits(v)
  {
    var left := v;
    p := 0;
    assert Digits(v) + Reversed(s[..0]) == Digits(v);
    while true
      invariant p + |Digits(left)| == |Digits(v)| && Digits(v) == Digits(left) + Reversed(s[..p])
      decreases left
    {
      ghost var was := s[..p];
      s[p] := ZERO + left % 10;
      p := p + 1;
      assert s[..p] == was + [ZERO + left % 10];
      assert Reversed(s[..p]) == [ZERO + left % 10] + Reversed(was);
      if left / 10 == 0 {
        break;
      }
      left := left / 10;
    }
  }

  /** A signed number of 64 bits in decimal, and a zero behind it. */
  method Ll2Str(s: array<Byte>, value: int) returns (l: nat)
    requires s.Length >= LLSTR_SIZE && -0x8000_0000_0000_0000 <= value < 0x8000_0000_0000_0000
    modifies s
    ensures l == |Decimal(value)| && l + 1 <= 21 && s[..l] == Decimal(value) && s[l] == 0
  {
    var v := if value < 0 then -value else value;
    Pow10Of20();
    DigitsFit(v, 19);
    l := PutDigits(s, v);
    ghost var digits := s[..l];
    if value < 0 {
      s[l] := MINUS;
      l := l + 1;
      assert s[..l] == digits + [MINUS];
      assert Reversed(s[..l]) == [MINUS] + Reversed(digits);
    }
    ghost var all := s[..l];
    s[l] := 0;
    assert s[..l] == all;
    TurnAround(s, l);
    assert s[l] == s[l..][0];
  }

  method Ull2Str(s: array<Byte>, v: nat) returns (l: nat)
    requires s.Length >= LLSTR_SIZE && v < 0x1_0000_0000_0000_0000
    modifies s
    ensures l == |Decimal(v)| && l + 1 <= 21 && s[..l] == Decimal(v) && s[l] == 0
  {
    Pow10Of20();
    DigitsFit(v, 20);
    l := PutDigits(s, v);
    ghost var all := s[..l];
    s[l] := 0;
    assert s[..l] == all;
    TurnAround(s, l);
    assert s[l] == s[l..][0];
  }
}
