/** JSON strings as dkjson writes and reads them, byte for byte. */
module Json {
  import opened Basics

  type Bytes = seq<Byte>

  const QUOTE: Byte := 34
  const BACKSLASH: Byte := 92
  const LETTER_U: Byte := 117

  // ---------- numbers in hexadecimal ----------

  function Hex4(v: nat): (s: Bytes)
    requires v <= 0xffff
    ensures |s| == 4
  {
    [HexDigit(v / 4096), HexDigit(v / 256 % 16), HexDigit(v / 16 % 16), HexDigit(v % 16)]
  }

  /** The number that hexadecimal digits write. */
  function ToNumber(s: Bytes): (v: Option<nat>) {
    if s == [] || !(forall i :: 0 <= i < |s| ==> IsHexDigit(s[i])) then None else Some(HexFold(s))
  }

  function HexFold(s: Bytes): nat {
    if s == [] then 0 else 16 * HexFold(s[..|s| - 1]) + HexValue(s[|s| - 1])
  }

  lemma HexFold4(a: Byte, b: Byte, c: Byte, d: Byte)
    ensures HexFold([a, b, c, d]) == ((HexValue(a) * 16 + HexValue(b)) * 16 + HexValue(c)) * 16 + HexValue(d)
  {
    assert [a, b, c, d][..3] == [a, b, c] && [a, b, c][..2] == [a, b] && [a, b][..1] == [a] && [a][..0] == [];
    assert HexFold([a]) == HexValue(a);
    assert HexFold([a, b]) == 16 * HexFold([a]) + HexValue(b);
    assert HexFold([a, b, c]) == 16 * HexFold([a, b]) + HexValue(c);
  }

  lemma FourDigits(v: nat)
    requires v <= 0xffff
    ensures ((v / 4096 * 16 + v / 256 % 16) * 16 + v / 16 % 16) * 16 + v % 16 == v
  {
  }

  lemma Hex4Reads(v: nat)
    requires v <= 0xffff
    ensures ToNumber(Hex4(v)) == Some(v)
  {
    HexFold4(Hex4(v)[0], Hex4(v)[1], Hex4(v)[2], Hex4(v)[3]);
    HexDigitReads(v / 4096);
    HexDigitReads(v / 256 % 16);
    HexDigitReads(v / 16 % 16);
    HexDigitReads(v % 16);
    FourDigits(v);
  }

  // ---------- writing ----------

  /** The letter after the backslash in a short escape; 0 if there is none. */
  function EscapeCode(b: Byte): Byte {
    if b == QUOTE || b == BACKSLASH then b
    else if b == 8 then 98 else if b == 12 then 102 else if b == 10 then 110 else if b == 13 then 114
      else if b == 9 then 116
    else 0
  }

  function ByteOr0(u: Bytes, i: nat): Byte { if i < |u| then u[i] else 0 }

  /** What the code takes the first bytes to encode; nothing if they cannot. */
  function Decode(u: Bytes): Option<nat> {
    var a: int, b: int, c: int, d: int := ByteOr0(u, 0), ByteOr0(u, 1), ByteOr0(u, 2), ByteOr0(u, 3);
    if a <= 0x7f then Some(a)
    else if 0xc0 <= a <= 0xdf && b >= 0x80 then Some((a - 0xc0) * 0x40 + b - 0x80)
    else if 0xe0 <= a <= 0xef && b >= 0x80 && c >= 0x80 then Some(((a - 0xe0) * 0x40 + b - 0x80) * 0x40 + c - 0x80)
    else if 0xf0 <= a <= 0xf7 && b >= 0x80 && c >= 0x80 && d >= 0x80 then
      Some((((a - 0xf0) * 0x40 + b - 0x80) * 0x40 + c - 0x80) * 0x40 + d - 0x80)
    else None
  }

  function UEscape(v: nat): Bytes
    requires v <= 0xffff
  {
    [BACKSLASH, LETTER_U] + Hex4(v)
  }

  function EscapeUtf8(u: Bytes): Bytes {
    if |u| == 1 && EscapeCode(u[0]) != 0 then [BACKSLASH, EscapeCode(u[0])]
    else
      match Decode(u)
      case None => []
      case Some(value) =>
        if value <= 0xffff then UEscape(value)
        else if value <= 0x10ffff
          then UEscape(0xD800 + (value - 0x10000) / 0x400) + UEscape(0xDC00 + (value - 0x10000) % 0x400)
        else []
  }

  const PASSES: nat := 9

  /** How many bytes at the front one of the nine patterns matches; 0 if it does not. */
  function MatchLen(s: Bytes, pass: nat): (n: nat)
    ensures n <= |s| && n <= 3
  {
    var a, b, c := ByteOr0(s, 0), ByteOr0(s, 1), ByteOr0(s, 2);
    if s == [] then 0
    else if pass == 0 then if a < 32 || a == QUOTE || a == BACKSLASH || a == 127 then 1 else 0
    else if pass == 1 then if a == 194 && (128 <= b <= 159 || b == 173) then 2 else 0
    else if pass == 2 then if a == 216 && 128 <= b <= 132 then 2 else 0
    else if pass == 3 then if a == 220 && b == 143 then 2 else 0
    else if pass == 4 then if a == 225 && b == 158 && 180 <= c <= 181 then 3 else 0
    else if pass == 5 then if a == 226 && b == 128 && (140 <= c <= 143 || 168 <= c <= 175) then 3 else 0
    else if pass == 6 then if a == 226 && b == 129 && 160 <= c <= 175 then 3 else 0
    else if pass == 7 then if a == 239 && b == 187 && c == 191 then 3 else 0
    else if pass == 8 then if a == 239 && b == 191 && 176 <= c <= 191 then 3 else 0
    else 0
  }

  /** All matches of a pattern escaped, from the front on. */
  function Gsub(s: Bytes, pass: nat): Bytes
    decreases |s|
  {
    if s == [] then []
    else
      var n := MatchLen(s, pass);
      if n > 0 then EscapeUtf8(s[..n]) + Gsub(s[n..], pass) else [s[0]] + Gsub(s[1..], pass)
  }

  function Finds(s: Bytes, pass: nat): bool { s != [] && (MatchLen(s, pass) > 0 || Finds(s[1..], pass)) }

  function Fsub(s: Bytes, pass: nat): Bytes { if Finds(s, pass) then Gsub(s, pass) else s }

  function Fsubs(s: Bytes, pass: nat): Bytes
    decreases PASSES - pass
  {
    if pass >= PASSES then s else Fsubs(Fsub(s, pass), pass + 1)
  }

  predicate IsLead(b: Byte) { b == 194 || b == 216 || b == 220 || b == 225 || b == 226 || b == 239 }

  predicate HasLead(s: Bytes) { exists i :: 0 <= i < |s| && IsLead(s[i]) }

  function QuoteString(value: Bytes): Bytes {
    var v := Fsub(value, 0);
    [QUOTE] + (if HasLead(v) then Fsubs(v, 1) else v) + [QUOTE]
  }

  // ---------- reading ----------

  function Unichar(v: nat): Bytes
    requires v <= 0x10ffff
  {
    if v <= 0x7f then [v]
    else if v <= 0x7ff then [0xc0 + v / 0x40, 0x80 + v % 0x40]
    else if v <= 0xffff then [0xe0 + v / 0x1000, 0x80 + v / 0x40 % 0x40, 0x80 + v % 0x40]
    else [0xf0 + v / 0x40000, 0x80 + v / 0x1000 % 0x40, 0x80 + v / 0x40 % 0x40, 0x80 + v % 0x40]
  }

  /** The bytes from i to before j, as far as there are any. */
  function Sub(s: Bytes, i: nat, j: nat): Bytes
    requires i <= j
  {
    if i >= |s| then [] else if j > |s| then s[i..] else s[i..j]
  }

  function EscapeChar(c: Byte): Byte {
    if c == 98 then 8 else if c == 102 then 12 else if c == 110 then 10 else if c == 114 then 13
      else if c == 116 then 9 else c
  }

  datatype Escape = Escape(value: Bytes, next: nat)

  /** The low surrogate after a high one, if there is one. */
  function LowAfter(str: Bytes, p: nat): Option<nat> {
    if Sub(str, p + 6, p + 8) != [BACKSLASH, LETTER_U] then None
    else
      var low := ToNumber(Sub(str, p + 8, p + 12));
      if low.Some? && 0xDC00 <= low.value <= 0xDFFF then low else None
  }

  lemma {:induction false} HexFoldFits(s: Bytes)
    ensures |s| <= 4 ==> HexFold(s) <= 0xffff
    ensures |s| <= 3 ==> HexFold(s) <= 0xfff
    ensures |s| <= 2 ==> HexFold(s) <= 0xff
    ensures |s| <= 1 ==> HexFold(s) <= 0xf
    ensures |s| <= 0 ==> HexFold(s) == 0
  {
    if s != [] {
      HexFoldFits(s[..|s| - 1]);
    }
  }

  /** What an escape at p stands for, and where it ends. */
  function ReadEscape(str: Bytes, p: nat): (e: Escape)
    ensures e.next > p
  {
    var code := if Sub(str, p + 1, p + 2) == [LETTER_U] then ToNumber(Sub(str, p + 2, p + 6)) else None;
    if code.None? then
      Escape(if p + 1 < |str| then [EscapeChar(str[p + 1])] else [], p + 2)
    else
      HexFoldFits(Sub(str, p + 2, p + 6));
      var low := if 0xD800 <= code.value <= 0xDBff then LowAfter(str, p) else None;
      if low.Some? then Escape(Unichar((code.value - 0xD800) * 0x400 + (low.value - 0xDC00) + 0x10000), p + 12)
      else Escape(Unichar(code.value), p + 6)
  }

  datatype Scanned = Scanned(value: Bytes, next: nat) | Unterminated

  /** Reading a string from inside, byte by byte or escape by escape. */
  function Scan(str: Bytes, p: nat, value: Bytes): Scanned
    decreases |str| - p
  {
    if p >= |str| then Unterminated
    else if str[p] == QUOTE then Scanned(value, p + 1)
    else if str[p] == BACKSLASH then
      var e := ReadEscape(str, p);
      Scan(str, e.next, value + e.value)
    else Scan(str, p + 1, value + [str[p]])
  }

  /** The next quote or backslash; the end if there is none. */
  method FindSpecial(str: Bytes, from: nat) returns (p: nat)
    ensures from <= p && (p < |str| ==> str[p] == QUOTE || str[p] == BACKSLASH) && (from <= |str| ==> p <= |str|)
    ensures forall i :: from <= i < p && i < |str| ==> str[i] != QUOTE && str[i] != BACKSLASH
  {
    p := from;
    while p < |str| && str[p] != QUOTE && str[p] != BACKSLASH
      invariant from <= p && (from <= |str| ==> p <= |str|)
      invariant forall i :: from <= i < p && i < |str| ==> str[i] != QUOTE && str[i] != BACKSLASH
    {
      p := p + 1;
    }
  }

  lemma {:induction false} ScanRaw(str: Bytes, p: nat, q: nat, value: Bytes)
    requires p <= q <= |str| && forall i :: p <= i < q ==> str[i] != QUOTE && str[i] != BACKSLASH
    ensures Scan(str, p, value) == Scan(str, q, value + str[p..q])
    decreases q - p
  {
    if p == q {
      assert value + str[p..q] == value;
    } else {
      ScanRaw(str, p + 1, q, value + [str[p]]);
      assert (value + [str[p]]) + str[p + 1..q] == value + str[p..q];
    }
  }

  /** Reads the string whose opening quote is at pos, a stretch at a time. */
  method ScanString(str: Bytes, pos: nat) returns (r: Scanned)
    ensures r == Scan(str, pos + 1, [])
  {
    var lastpos, buffer: Bytes := pos + 1, [];
    while true
      invariant Scan(str, lastpos, buffer) == Scan(str, pos + 1, [])
      decreases |str| - lastpos
    {
      var nextpos := FindSpecial(str, lastpos);
      if nextpos >= |str| {
        if lastpos <= |str| {
          ScanRaw(str, lastpos, nextpos, buffer);
        }
        return Unterminated;
      }
      ScanRaw(str, lastpos, nextpos, buffer);
      if nextpos > lastpos {
        buffer := buffer + str[lastpos..nextpos];
      } else {
        assert buffer + str[lastpos..nextpos] == buffer;
      }
      if str[nextpos] == QUOTE {
        return Scanned(buffer, nextpos + 1);
      }
      var e := ReadEscape(str, nextpos);
      buffer := buffer + e.value;
      lastpos := e.next;
    }
    r := Unterminated;
  }

  // ---------- an escape is read back ----------

  predicate IsCont(b: Byte) { 0x80 <= b <= 0xbf }

  /** One character in UTF-8 (section 4 of RFC 3629): no overlong form and no surrogate. */
  predicate IsChar(u: Bytes) {
    || (|u| == 1 && u[0] <= 0x7f)
    || (|u| == 2 && 0xc2 <= u[0] <= 0xdf && IsCont(u[1]))
    || (|u| == 3 && 0xe0 <= u[0] <= 0xef && IsCont(u[1]) && IsCont(u[2])
        && (u[0] == 0xe0 ==> u[1] >= 0xa0) && (u[0] == 0xed ==> u[1] <= 0x9f))
    || (|u| == 4 && 0xf0 <= u[0] <= 0xf4 && IsCont(u[1]) && IsCont(u[2]) && IsCont(u[3])
        && (u[0] == 0xf0 ==> u[1] >= 0x90) && (u[0] == 0xf4 ==> u[1] <= 0x8f))
  }

  lemma TwoBytes(u: Bytes)
    requires IsChar(u) && |u| == 2
    ensures var v := Decode(u); v.Some? && 0x7f < v.value <= 0x7ff && Unichar(v.value) == u
  {
    var a: int, b: int := u[0], u[1];
    assert Decode(u) == Some((a - 0xc0) * 0x40 + (b - 0x80));
  }

  lemma ThreeBytes(u: Bytes)
    requires IsChar(u) && |u| == 3
    ensures var v := Decode(u);
      v.Some? && 0x7ff < v.value <= 0xffff && !(0xD800 <= v.value <= 0xDFFF) && Unichar(v.value) == u
  {
    var a: int, b: int, c: int := u[0], u[1], u[2];
    var v: nat := ((a - 0xe0) * 0x40 + (b - 0x80)) * 0x40 + (c - 0x80);
    assert Decode(u) == Some(v);
    assert v / 0x1000 == a - 0xe0 && v / 0x40 % 0x40 == b - 0x80 && v % 0x40 == c - 0x80;
  }

  lemma FourBytes(u: Bytes)
    requires IsChar(u) && |u| == 4
    ensures var v := Decode(u); v.Some? && 0xffff < v.value <= 0x10ffff && Unichar(v.value) == u
  {
    var a: int, b: int, c: int, d: int := u[0], u[1], u[2], u[3];
    var v: nat := (((a - 0xf0) * 0x40 + (b - 0x80)) * 0x40 + (c - 0x80)) * 0x40 + (d - 0x80);
    assert Decode(u) == Some(v);
    SixBits(a - 0xf0, b - 0x80, c - 0x80, d - 0x80, v);
  }

  lemma SixBits(x: nat, y: nat, z: nat, w: nat, v: nat)
    requires y < 0x40 && z < 0x40 && w < 0x40 && v == ((x * 0x40 + y) * 0x40 + z) * 0x40 + w
    ensures v / 0x40000 == x && v / 0x1000 % 0x40 == y && v / 0x40 % 0x40 == z && v % 0x40 == w
  {
    var p, q := x * 0x40 + y, (x * 0x40 + y) * 0x40 + z;
    assert v / 0x40 == q && v % 0x40 == w;
    assert v / 0x1000 == p && q % 0x40 == z;
  }

  /** A character's number encodes it again. */
  lemma DecodeThenUnichar(u: Bytes)
    requires IsChar(u)
    ensures var v := Decode(u);
      && v.Some? && v.value <= 0x10ffff && !(0xD800 <= v.value <= 0xDFFF) && (|u| == 4 <==> v.value > 0xffff)
      && Unichar(v.value) == u
  {
    if |u| == 2 {
      TwoBytes(u);
    } else if |u| == 3 {
      ThreeBytes(u);
    } else if |u| == 4 {
      FourBytes(u);
    }
  }

  /** What stands after `front` in a string. */
  lemma Past(str: Bytes, p: nat, front: Bytes, rest: Bytes, q: nat)
    requires p <= |str| && str[p..] == front + rest && q == p + |front|
    ensures q <= |str| && str[q..] == rest
    ensures front != [] ==> p < |str| && str[p] == front[0]
  {
    assert str[q..] == str[p..][|front|..];
    assert front != [] ==> str[p] == str[p..][0];
  }

  lemma SubAt(str: Bytes, p: nat, front: Bytes, rest: Bytes, i: nat, j: nat, a: nat, b: nat)
    requires p <= |str| && str[p..] == front + rest && i <= j <= |front| && a == p + i && b == p + j
    ensures Sub(str, a, b) == front[i..j]
  {
    assert b <= |str|;
    assert Sub(str, a, b) == str[a..b];
    forall k | 0 <= k < j - i ensures str[a..b][k] == front[i..j][k] {
      assert str[a + k] == str[p..][i + k] == front[i + k];
    }
  }

  lemma UEscapeParts(str: Bytes, p: nat, v: nat, rest: Bytes)
    requires v <= 0xffff && p <= |str| && str[p..] == UEscape(v) + rest
    ensures Sub(str, p + 1, p + 2) == [LETTER_U] && Sub(str, p, p + 2) == [BACKSLASH, LETTER_U]
    ensures ToNumber(Sub(str, p + 2, p + 6)) == Some(v)
    ensures p + 6 <= |str| && str[p + 6..] == rest
  {
    var e := UEscape(v);
    SubAt(str, p, e, rest, 1, 2, p + 1, p + 2);
    SubAt(str, p, e, rest, 0, 2, p, p + 2);
    SubAt(str, p, e, rest, 2, 6, p + 2, p + 6);
    Past(str, p, e, rest, p + 6);
    assert e[1..2] == [LETTER_U] && e[0..2] == [BACKSLASH, LETTER_U] && e[2..6] == Hex4(v);
    Hex4Reads(v);
  }

  lemma ReadsU(str: Bytes, p: nat, v: nat, rest: Bytes)
    requires v <= 0xffff && !(0xD800 <= v <= 0xDBFF) && p <= |str| && str[p..] == UEscape(v) + rest
    ensures ReadEscape(str, p) == Escape(Unichar(v), p + 6)
  {
    UEscapeParts(str, p, v, rest);
  }

  lemma ReadsPair(str: Bytes, p: nat, v: nat, high: nat, low: nat, rest: Bytes)
    requires 0xD800 <= high < 0xDC00 <= low < 0xE000 && v == (high - 0xD800) * 0x400 + (low - 0xDC00) + 0x10000
    requires p <= |str| && str[p..] == UEscape(high) + (UEscape(low) + rest)
    ensures ReadEscape(str, p) == Escape(Unichar(v), p + 12)
  {
    UEscapeParts(str, p, high, UEscape(low) + rest);
    UEscapeParts(str, p + 6, low, rest);
  }

  lemma ReadsShort(str: Bytes, p: nat, b: Byte, rest: Bytes)
    requires EscapeCode(b) != 0 && p <= |str| && str[p..] == [BACKSLASH, EscapeCode(b)] + rest
    ensures ReadEscape(str, p) == Escape([b], p + 2)
  {
    SubAt(str, p, [BACKSLASH, EscapeCode(b)], rest, 1, 2, p + 1, p + 2);
    assert str[p + 1] == str[p..][1] == EscapeCode(b);
    assert Sub(str, p + 1, p + 2) == [EscapeCode(b)];
  }

  /** Every character that is escaped is read back as it was, over all of its escape. */
  lemma ReadsEscaped(str: Bytes, p: nat, u: Bytes, rest: Bytes, q: nat)
    requires IsChar(u) && p <= |str| && str[p..] == EscapeUtf8(u) + rest && q == p + |EscapeUtf8(u)|
    ensures ReadEscape(str, p) == Escape(u, q)
  {
    DecodeThenUnichar(u);
    var v := Decode(u).value;
    if |u| == 1 && EscapeCode(u[0]) != 0 {
      ReadsShort(str, p, u[0], rest);
    } else if v <= 0xffff {
      ReadsU(str, p, v, rest);
    } else {
      var high, low := 0xD800 + (v - 0x10000) / 0x400, 0xDC00 + (v - 0x10000) % 0x400;
      assert (UEscape(high) + UEscape(low)) + rest == UEscape(high) + (UEscape(low) + rest);
      ReadsPair(str, p, v, high, low, rest);
    }
  }

  // ---------- quoting byte by byte and escape by escape ----------

  /** A string while it is being quoted: bytes as they are, and bytes escaped. */
  datatype Unit = Raw(b: Byte) | Escaped(u: Bytes)

  function TextOf(x: Unit): Bytes { if x.Raw? then [x.b] else EscapeUtf8(x.u) }
  function Means(x: Unit): Bytes { if x.Raw? then [x.b] else x.u }

  function Text(xs: seq<Unit>): Bytes { if xs == [] then [] else TextOf(xs[0]) + Text(xs[1..]) }
  function Meaning(xs: seq<Unit>): Bytes { if xs == [] then [] else Means(xs[0]) + Meaning(xs[1..]) }

  /** The characters that are to be escaped, by their numbers: controls, the quote and the
      backslash, and those of no width that some readers take for line ends or for nothing. */
  predicate Special(v: nat) {
    || v < 0x20 || v == 0x22 || v == 0x5c || 0x7f <= v <= 0x9f || v == 0xad
    || 0x600 <= v <= 0x604 || v == 0x70f || 0x17b4 <= v <= 0x17b5
    || 0x200c <= v <= 0x200f || 0x2028 <= v <= 0x202f || 0x2060 <= v <= 0x206f
    || v == 0xfeff || 0xfff0 <= v <= 0xffff
  }

  predicate UnitOK(x: Unit) {
    match x
    case Raw(b) => b != QUOTE && b != BACKSLASH
    case Escaped(u) => IsChar(u) && Decode(u).Some? && Special(Decode(u).value)
  }

  predicate AllOK(xs: seq<Unit>) { forall i :: 0 <= i < |xs| ==> UnitOK(xs[i]) }

  /** What a match is, is one of those characters. */
  lemma MatchIsChar(s: Bytes, pass: nat)
    requires MatchLen(s, pass) > 0
    ensures UnitOK(Escaped(s[..MatchLen(s, pass)]))
  {
  }

  /** An escape is of ASCII bytes, of which no later pattern's match can begin. */
  lemma EscapeIsAscii(u: Bytes)
    requires IsChar(u)
    ensures EscapeUtf8(u) != [] && forall i :: 0 <= i < |EscapeUtf8(u)| ==> EscapeUtf8(u)[i] < 128
  {
    DecodeThenUnichar(u);
  }

  lemma {:induction false} GsubAscii(front: Bytes, rest: Bytes, pass: nat)
    requires pass > 0 && forall i :: 0 <= i < |front| ==> front[i] < 128
    ensures Gsub(front + rest, pass) == front + Gsub(rest, pass)
  {
    if front == [] {
      assert front + rest == rest;
    } else {
      var s := front + rest;
      assert s[0] == front[0] && s[1..] == front[1..] + rest;
      AsciiNoMatch(s, pass);
      GsubAscii(front[1..], rest, pass);
      Regroup([front[0]], front[1..], Gsub(rest, pass));
      assert [front[0]] + front[1..] == front;
    }
  }

  lemma AsciiNoMatch(s: Bytes, pass: nat)
    requires pass > 0 && s != [] && s[0] < 128
    ensures Gsub(s, pass) == [s[0]] + Gsub(s[1..], pass)
  {
  }

  /** The first unit is a byte as it is if the text does not begin with an ASCII byte. */
  lemma FirstIsRaw(xs: seq<Unit>)
    requires AllOK(xs) && Text(xs) != [] && Text(xs)[0] >= 128
    ensures xs != [] && xs[0] == Raw(Text(xs)[0]) && Text(xs[1..]) == Text(xs)[1..]
    ensures Meaning(xs) == [Text(xs)[0]] + Meaning(xs[1..])
  {
    if xs[0].Escaped? {
      EscapeIsAscii(xs[0].u);
    }
  }

  lemma OneOff<T>(t: seq<T>, n: nat)
    requires 0 < n <= |t|
    ensures t[..n] == [t[0]] + t[1..][..n - 1] && t[n..] == t[1..][n - 1..]
  {
  }

  /** And so with the first n. */
  lemma {:induction false} FrontIsRaw(xs: seq<Unit>, n: nat)
    requires AllOK(xs) && n <= |Text(xs)| && forall i :: 0 <= i < n ==> Text(xs)[i] >= 128
    ensures n <= |xs| && Text(xs[n..]) == Text(xs)[n..] && Meaning(xs) == Text(xs)[..n] + Meaning(xs[n..])
  {
    var t := Text(xs);
    if n > 0 {
      FirstIsRaw(xs);
      forall i | 0 <= i < n - 1 ensures t[1..][i] >= 128 {
        assert t[i + 1] >= 128;
      }
      var ys, m := xs[1..], n - 1;
      FrontIsRaw(ys, m);
      OneOff(t, n);
      OneOff(xs, n);
      Regroup([t[0]], t[1..][..m], Meaning(ys[m..]));
    } else {
      assert xs[0..] == xs && t[0..] == t && t[..0] == [];
    }
  }

  lemma MatchIsHigh(s: Bytes, pass: nat)
    requires pass > 0 && MatchLen(s, pass) > 0
    ensures forall i :: 0 <= i < MatchLen(s, pass) ==> s[i] >= 128
  {
  }

  /** A pass over the text is a pass over the units, which mean the same. */
  lemma {:induction false} PassKeeps(xs: seq<Unit>, pass: nat) returns (ys: seq<Unit>)
    requires pass > 0 && AllOK(xs)
    ensures AllOK(ys) && Text(ys) == Gsub(Text(xs), pass) && Meaning(ys) == Meaning(xs)
    decreases |xs|
  {
    if xs == [] {
      return [];
    }
    var t, n := Text(xs), MatchLen(Text(xs), pass);
    if n > 0 {
      MatchIsHigh(t, pass);
      MatchIsChar(t, pass);
      FrontIsRaw(xs, n);
      var rest := PassKeeps(xs[n..], pass);
      ys := [Escaped(t[..n])] + rest;
      assert ys[1..] == rest;
    } else {
      ys := PassOne(xs, pass);
    }
  }

  lemma {:induction false} PassOne(xs: seq<Unit>, pass: nat) returns (ys: seq<Unit>)
    requires pass > 0 && AllOK(xs) && xs != [] && MatchLen(Text(xs), pass) == 0
    ensures AllOK(ys) && Text(ys) == Gsub(Text(xs), pass) && Meaning(ys) == Meaning(xs)
    decreases |xs|, 0
  {
    var rest := PassKeeps(xs[1..], pass);
    ys := [xs[0]] + rest;
    assert ys[1..] == rest;
    if xs[0].Escaped? {
      EscapeIsAscii(xs[0].u);
      GsubAscii(EscapeUtf8(xs[0].u), Text(xs[1..]), pass);
    } else {
      assert Text(xs)[1..] == Text(xs[1..]);
    }
  }

  /** The first pass, byte by byte. */
  lemma FirstByte(s: Bytes) returns (x: Unit)
    requires s != []
    ensures UnitOK(x) && Means(x) == [s[0]] && Gsub(s, 0) == TextOf(x) + Gsub(s[1..], 0)
  {
    assert MatchLen(s, 0) > 0 ==> Decode([s[0]]) == Some(s[0]);
    x := if MatchLen(s, 0) > 0 then Escaped([s[0]]) else Raw(s[0]);
    assert s[..1] == [s[0]];
  }

  lemma UnitFirst(x: Unit, xs: seq<Unit>)
    requires UnitOK(x) && AllOK(xs)
    ensures AllOK([x] + xs) && Text([x] + xs) == TextOf(x) + Text(xs) && Meaning([x] + xs) == Means(x) + Meaning(xs)
  {
    assert ([x] + xs)[1..] == xs;
  }

  lemma FirstStep(s: Bytes, rest: seq<Unit>) returns (ys: seq<Unit>)
    requires s != [] && AllOK(rest) && Text(rest) == Gsub(s[1..], 0) && Meaning(rest) == s[1..]
    ensures AllOK(ys) && Text(ys) == Gsub(s, 0) && Meaning(ys) == s
  {
    var x := FirstByte(s);
    UnitFirst(x, rest);
    ys := [x] + rest;
  }

  lemma {:induction false} FirstPass(s: Bytes) returns (ys: seq<Unit>)
    ensures AllOK(ys) && Text(ys) == Gsub(s, 0) && Meaning(ys) == s
  {
    if s == [] {
      ys := [];
    } else {
      var rest := FirstPass(s[1..]);
      ys := FirstStep(s, rest);
    }
  }

  lemma {:induction false} FsubIsGsub(s: Bytes, pass: nat)
    ensures Fsub(s, pass) == Gsub(s, pass)
  {
    if s != [] && !Finds(s, pass) {
      FsubIsGsub(s[1..], pass);
      assert s == [s[0]] + s[1..];
    }
  }

  lemma {:induction false} PassesKeep(xs: seq<Unit>, pass: nat) returns (ys: seq<Unit>)
    requires pass > 0 && AllOK(xs)
    ensures AllOK(ys) && Text(ys) == Fsubs(Text(xs), pass) && Meaning(ys) == Meaning(xs)
    decreases PASSES - pass
  {
    if pass >= PASSES {
      return xs;
    }
    FsubIsGsub(Text(xs), pass);
    var zs := PassKeeps(xs, pass);
    ys := PassesKeep(zs, pass + 1);
  }

  lemma ScansUnit(str: Bytes, p: nat, x: Unit, more: Bytes, value: Bytes, q: nat)
    requires UnitOK(x) && p <= |str| && str[p..] == TextOf(x) + more && q == p + |TextOf(x)|
    ensures q <= |str| && str[q..] == more
    ensures Scan(str, p, value) == Scan(str, q, value + Means(x))
  {
    Past(str, p, TextOf(x), more, q);
    if x.Escaped? {
      EscapeIsAscii(x.u);
      EscapeBegins(x.u);
      ReadsEscaped(str, p, x.u, more, q);
    }
  }

  lemma EscapeBegins(u: Bytes)
    requires IsChar(u)
    ensures EscapeUtf8(u) != [] && EscapeUtf8(u)[0] == BACKSLASH
  {
    DecodeThenUnichar(u);
  }

  /** What is left of a text in quotes. */
  function Left(xs: seq<Unit>, rest: Bytes): Bytes { Text(xs) + ([QUOTE] + rest) }

  lemma LeftSteps(xs: seq<Unit>, rest: Bytes)
    ensures xs == [] ==> Left(xs, rest) == [QUOTE] + rest
    ensures xs != [] ==> Left(xs, rest) == TextOf(xs[0]) + Left(xs[1..], rest)
    ensures xs != [] ==>
      Meaning(xs) == Means(xs[0]) + Meaning(xs[1..]) && |Text(xs)| == |TextOf(xs[0])| + |Text(xs[1..])|
  {
  }

  lemma ScansEnd(str: Bytes, p: nat, rest: Bytes, value: Bytes)
    requires p <= |str| && str[p..] == [QUOTE] + rest
    ensures Scan(str, p, value) == Scanned(value, p + 1)
  {
    Past(str, p, [QUOTE], rest, p + 1);
  }

  lemma {:induction false} ScansUnits(str: Bytes, p: nat, xs: seq<Unit>, rest: Bytes, value: Bytes, n: nat)
    requires AllOK(xs) && p <= |str| && str[p..] == Left(xs, rest) && n == |Text(xs)|
    ensures Scan(str, p, value) == Scanned(value + Meaning(xs), p + n + 1)
    decreases |xs|
  {
    LeftSteps(xs, rest);
    if xs == [] {
      ScansEnd(str, p, rest, value);
      assert value + [] == value;
    } else {
      var x := xs[0];
      var m := |TextOf(x)|;
      ScansUnit(str, p, x, Left(xs[1..], rest), value, p + m);
      ScansUnits(str, p + m, xs[1..], rest, value + Means(x), n - m);
      Regroup(value, Means(x), Meaning(xs[1..]));
    }
  }

  /** A quoted string is the text of units that mean it. */
  lemma QuoteIsText(s: Bytes) returns (ys: seq<Unit>)
    ensures AllOK(ys) && Meaning(ys) == s && QuoteString(s) == [QUOTE] + Text(ys) + [QUOTE]
  {
    FsubIsGsub(s, 0);
    ys := FirstPass(s);
    if HasLead(Text(ys)) {
      ys := PassesKeep(ys, 1);
    }
  }

  /** A quoted string, wherever it stands, is read back byte for byte, and reading ends just
      past its closing quote. */
  lemma ScanUndoesQuote(s: Bytes, before: Bytes, after: Bytes)
    ensures Scan(before + QuoteString(s) + after, |before| + 1, []) == Scanned(s, |before| + |QuoteString(s)|)
  {
    var ys := QuoteIsText(s);
    var str := before + QuoteString(s) + after;
    Placed(before, Text(ys), after);
    ScansUnits(str, |before| + 1, ys, after, [], |Text(ys)|);
    assert [] + s == s;
  }

  lemma Placed(before: Bytes, text: Bytes, after: Bytes)
    ensures (before + ([QUOTE] + text + [QUOTE]) + after)[|before| + 1..] == text + ([QUOTE] + after)
  {
  }

  /** A pass that is skipped would have changed nothing. */
  lemma {:induction false} NoLeadNoMatch(s: Bytes, pass: nat)
    requires pass > 0 && !HasLead(s)
    ensures Fsub(s, pass) == s
  {
    if s != [] {
      assert !IsLead(s[0]);
      NoLeadNoMatch(s[1..], pass);
      assert Finds(s, pass) == Finds(s[1..], pass);
    }
  }
}
