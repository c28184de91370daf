/** The Redis serialization protocol: replies, how they are written, and the numbers and
    lines they are made of. */
module Resp {
  import opened Basics

  const CR: Byte := 13
  const LF: Byte := 10
  const CRLF: seq<Byte> := [CR, LF]
  const MINUS: Byte := 45
  const PLUS: Byte := 43
  const COLON: Byte := 58
  const DOLLAR: Byte := 36
  const STAR: Byte := 42
  const ZERO: Byte := 48

  datatype Reply =
    | Error(str: seq<Byte>)
    | Status(str: seq<Byte>)
    | Integer(integer: int)
    | String(str: seq<Byte>)
    | Nil
    | Array(elements: int, items: seq<Reply>)

  // ---------- numbers ----------

  /** A number in decimal. */
  function Digits(n: nat): (s: seq<Byte>)
    ensures |s| > 0 && forall c :: c in s ==> ZERO <= c < ZERO + 10
  {
    if n < 10 then [ZERO + n] else Digits(n / 10) + [ZERO + n % 10]
  }

  function Decimal(n: int): (s: seq<Byte>) {
    if n < 0 then [MINUS] + Digits(-n) else Digits(n)
  }

  /** Digits read from i on, up to a carriage return; -1 at anything else. */
  function ReadDigits(s: seq<Byte>, i: nat, v: nat): (r: int)
    requires i <= |s|
    decreases |s| - i
  {
    if i == |s| || s[i] == CR then v
    else if ZERO <= s[i] < ZERO + 10 then ReadDigits(s, i + 1, 10 * v + (s[i] - ZERO))
    else -1
  }

  /** All bytes from i up to the carriage return are digits. */
  predicate AllDigits(s: seq<Byte>, i: nat)
    requires i <= |s|
    decreases |s| - i
  {
    i == |s| || s[i] == CR || (ZERO <= s[i] < ZERO + 10 && AllDigits(s, i + 1))
  }

  /** The number at the front of a line; -1 whatever the sign when a byte is no digit. */
  function ReadLong(s: seq<Byte>): (r: int) {
    var sign := s != [] && (s[0] == MINUS || s[0] == PLUS);
    var i := if sign then 1 else 0;
    if !AllDigits(s, i) then -1
    else if sign && s[0] == MINUS then -ReadDigits(s, i, 0)
    else ReadDigits(s, i, 0)
  }

  /** Reading stops at the carriage return. */
  lemma {:induction false} ReadDigitsGrows(s: seq<Byte>, more: seq<Byte>, i: nat, k: nat, v: nat)
    requires i <= k < |s| && s[k] == CR
    ensures ReadDigits(s + more, i, v) == ReadDigits(s, i, v) && AllDigits(s + more, i) == AllDigits(s, i)
    decreases k - i
  {
    if s[i] != CR && ZERO <= s[i] < ZERO + 10 {
      ReadDigitsGrows(s, more, i + 1, k, 10 * v + (s[i] - ZERO));
    }
  }

  lemma ReadLongGrows(s: seq<Byte>, more: seq<Byte>, k: nat)
    requires k < |s| && s[k] == CR
    ensures ReadLong(s + more) == ReadLong(s)
  {
    var i := if s[0] == MINUS || s[0] == PLUS then 1 else 0;
    ReadDigitsGrows(s, more, i, k, 0);
  }

  function Pow10(k: nat): (p: nat)
    ensures p > 0
  {
    if k == 0 then 1 else 10 * Pow10(k - 1)
  }

  /** Reading the digits of n after those of v gives the number they write together. */
  lemma {:induction false} ReadDigitsOf(n: nat, before: seq<Byte>, after: seq<Byte>, v: nat)
    ensures var s := before + Digits(n) + [CR] + after;
      && ReadDigits(s, |before|, v) == v * Pow10(|Digits(n)|) + n
      && AllDigits(s, |before|)
  {
    ReadDigitsMid(n, before, [CR] + after, v);
    var s := before + Digits(n) + ([CR] + after);
    assert before + Digits(n) + [CR] + after == s;
    var k := |before| + |Digits(n)|;
    assert s[k] == CR;
  }

  lemma {:induction false} ReadDigitsMid(n: nat, before: seq<Byte>, after: seq<Byte>, v: nat)
    ensures var s, k := before + Digits(n) + after, |before| + |Digits(n)|;
      && ReadDigits(s, |before|, v) == ReadDigits(s, k, v * Pow10(|Digits(n)|) + n)
      && AllDigits(s, |before|) == AllDigits(s, k)
  {
    var s := before + Digits(n) + after;
    if n < 10 {
      assert s[|before|] == ZERO + n;
      assert Pow10(1) == 10;
    } else {
      var high, d := Digits(n / 10), n % 10;
      Regroup(before, high, [ZERO + d]);
      Regroup(before + high, [ZERO + d], after);
      ReadDigitsMid(n / 10, before, [ZERO + d] + after, v);
      assert s[|before| + |high|] == ZERO + d;
      OneDigitMore(v, n, |high|);
    }
  }

  lemma OneDigitMore(v: nat, n: nat, k: nat)
    ensures 10 * (v * Pow10(k) + n / 10) + n % 10 == v * Pow10(k + 1) + n
  {
    var p := Pow10(k);
    assert v * (10 * p) == 10 * (v * p);
  }

  lemma ReadLongOfDecimal(n: int, after: seq<Byte>)
    ensures ReadLong(Decimal(n) + CRLF + after) == n
  {
    var s := Decimal(n) + CRLF + after;
    if n < 0 {
      assert s == [MINUS] + Digits(-n) + [CR] + ([LF] + after);
      ReadDigitsOf(-n, [MINUS], [LF] + after, 0);
    } else {
      assert s == [] + Digits(n) + [CR] + ([LF] + after);
      ReadDigitsOf(n, [], [LF] + after, 0);
      assert s[0] == Digits(n)[0];
    }
  }

  /** A plus sign changes nothing. */
  lemma PlusReads(n: nat, after: seq<Byte>)
    ensures ReadLong([43] + Decimal(n) + CRLF + after) == n
    ensures OneLine([43] + Decimal(n))
  {
    assert [43] + Decimal(n) + CRLF + after == [PLUS] + Digits(n) + [CR] + ([LF] + after);
    ReadDigitsOf(n, [PLUS], [LF] + after, 0);
    var s := [43] + Decimal(n);
    forall j | 0 <= j < |s| ensures s[j] != CR {
      assert j > 0 ==> s[j] in Digits(n);
    }
  }

  /** A byte after the first that is no digit makes the line no number. */
  lemma NoNumber(s: seq<Byte>, i: nat, after: seq<Byte>)
    requires CR !in s && 0 < i < |s| && !(48 <= s[i] < 58)
    ensures ReadLong(s + CRLF + after) == -1
  {
    var t := s + CRLF + after;
    assert t[0] == s[0] && t[i] == s[i];
    NotAllDigits(t, if s[0] == MINUS || s[0] == PLUS then 1 else 0, i, |s|);
  }

  lemma {:induction false} NotAllDigits(t: seq<Byte>, from: nat, i: nat, n: nat)
    requires from <= i < n <= |t| && !(48 <= t[i] < 58) && forall j :: from <= j <= i ==> t[j] != CR
    ensures !AllDigits(t, from)
    decreases i - from
  {
    if from < i {
      NotAllDigits(t, from + 1, i, n);
    }
  }

  // ---------- lines ----------

  predicate NewlineAt(s: seq<Byte>, i: nat) { i + 1 < |s| && s[i] == CR && s[i + 1] == LF }

  /** The place of the first line end from i on. */
  function Newline(s: seq<Byte>, i: nat): (r: Option<nat>)
    requires i <= |s|
    ensures r.Some? ==> i <= r.value && NewlineAt(s, r.value) && forall j :: i <= j < r.value ==> !NewlineAt(s, j)
    ensures r.None? ==> forall j :: i <= j ==> !NewlineAt(s, j)
    decreases |s| - i
  {
    if NewlineAt(s, i) then Some(i) else if i == |s| then None else Newline(s, i + 1)
  }

  lemma NewlineIs(s: seq<Byte>, i: nat)
    requires NewlineAt(s, i) && forall j :: 0 <= j < i ==> !NewlineAt(s, j)
    ensures Newline(s, 0) == Some(i)
  {
  }

  lemma NewlineGrows(s: seq<Byte>, more: seq<Byte>)
    requires Newline(s, 0).Some?
    ensures Newline(s + more, 0) == Newline(s, 0)
  {
    var i := Newline(s, 0).value;
    forall j | 0 <= j < i ensures !NewlineAt(s + more, j) {
      assert !NewlineAt(s, j);
    }
    assert NewlineAt(s + more, i);
    NewlineIs(s + more, i);
  }

  /** Bytes that a line can hold: no line end within them. */
  ghost predicate OneLine(s: seq<Byte>) { forall j :: 0 <= j < |s| ==> !NewlineAt(s, j) }

  lemma LineEnds(s: seq<Byte>, after: seq<Byte>)
    requires OneLine(s)
    ensures Newline(s + CRLF + after, 0) == Some(|s|)
    ensures (s + CRLF + after)[..|s|] == s && (s + CRLF + after)[|s| + 2..] == after
  {
    var t := s + CRLF + after;
    forall j | 0 <= j < |s| ensures !NewlineAt(t, j) {
      assert !NewlineAt(s, j);
    }
    assert NewlineAt(t, |s|);
    NewlineIs(t, |s|);
  }

  lemma DecimalIsLine(n: int)
    ensures OneLine(Decimal(n))
  {
    var s := Decimal(n);
    forall j | 0 <= j < |s| ensures s[j] != CR {
      assert n < 0 && j > 0 ==> s[j] in Digits(-n);
      assert n >= 0 ==> s[j] in Digits(n);
    }
  }

  // ---------- replies as they are sent ----------

  function Line(mark: Byte, s: seq<Byte>): seq<Byte> { [mark] + s + CRLF }

  function Encode(r: Reply): (s: seq<Byte>) {
    match r
    case Error(s) => Line(MINUS, s)
    case Status(s) => Line(PLUS, s)
    case Integer(n) => Line(COLON, Decimal(n))
    case String(s) => Line(DOLLAR, Decimal(|s|)) + s + CRLF
    case Nil => Line(DOLLAR, Decimal(-1))
    case Array(n, items) => Line(STAR, Decimal(n)) + EncodeItems(items)
  }

  function EncodeItems(items: seq<Reply>): (s: seq<Byte>) {
    if items == [] then [] else Encode(items[0]) + EncodeItems(items[1..])
  }

  /** The protocol, in bytes: a mark, a text or a number in decimal, a line end, and for a
      string its bytes and another. */
  lemma WireForms(s: seq<Byte>, n: int, items: seq<Reply>)
    ensures Encode(Error(s)) == [45] + s + [13, 10] && Encode(Status(s)) == [43] + s + [13, 10]
    ensures Encode(Integer(n)) == [58] + Decimal(n) + [13, 10]
    ensures Encode(String(s)) == [36] + Decimal(|s|) + [13, 10] + s + [13, 10]
    ensures Encode(Nil) == [36, 45, 49, 13, 10]
    ensures Encode(Array(n, items)) == [42] + Decimal(n) + [13, 10] + EncodeItems(items)
  {
    assert Digits(1) == [49];
  }

  /** And decimal: digits, the first not zero unless alone, each a tenth of the one before. */
  lemma {:induction false} DecimalForm(n: nat)
    ensures Decimal(n) == Digits(n) && (n > 0 ==> Decimal(-(n as int)) == [45] + Digits(n))
    ensures n < 10 ==> Digits(n) == [48 + n]
    ensures n >= 10 ==> Digits(n) == Digits(n / 10) + Digits(n % 10) && Digits(n)[0] != 48
  {
    if n >= 10 {
      DecimalForm(n / 10);
    }
  }

  /** Status and error texts are lines; an array says how many items it has. */
  ghost predicate Sendable(r: Reply) {
    match r
    case Error(s) => OneLine(s)
    case Status(s) => OneLine(s)
    case Array(n, items) => n == |items| && forall i :: 0 <= i < |items| ==> Sendable(items[i])
    case _ => true
  }

  function Max(a: nat, b: nat): nat { if a < b then b else a }

  /** How deep arrays are nested. */
  function Depth(r: Reply): nat {
    if r.Array? then 1 + DepthItems(r.items) else 0
  }

  function DepthItems(items: seq<Reply>): nat {
    if items == [] then 0 else Max(Depth(items[0]), DepthItems(items[1..]))
  }

  function Size(r: Reply): nat {
    if r.Array? then 1 + SizeItems(r.items) else 0
  }

  function SizeItems(items: seq<Reply>): nat {
    if items == [] then 0 else 1 + Size(items[0]) + SizeItems(items[1..])
  }
}
