/** What several of the models need: optional values, bytes, and a law of sequences. */
module Basics {

  datatype Option<+T> = None | Some(value: T)

  type Byte = b: nat | b < 256

  function HexDigit(n: nat): (c: Byte)
    requires n < 16
  {
    if n < 10 then 48 + n else 87 + n
  }

  predicate IsHexDigit(c: Byte) { 48 <= c <= 57 || 97 <= c <= 102 || 65 <= c <= 70 }

  function HexValue(c: Byte): (n: nat)
    ensures n < 16
  {
    if 48 <= c <= 57 then c - 48 else if 97 <= c <= 102 then c - 87 else if 65 <= c <= 70 then c - 55 else 0
  }

  /** Digits, and letters in either case; lower-case ones are written. */
  lemma HexTable(c: Byte)
    ensures 48 <= c <= 57 ==> IsHexDigit(c) && HexValue(c) == c - 48 && HexDigit(c - 48) == c
    ensures 97 <= c <= 102 ==> IsHexDigit(c) && HexValue(c) == c - 87 && HexDigit(c - 87) == c
    ensures 65 <= c <= 70 ==> IsHexDigit(c) && HexValue(c) == c - 55
    ensures !(48 <= c <= 57) && !(97 <= c <= 102) && !(65 <= c <= 70) ==> !IsHexDigit(c)
  {
  }

  lemma HexDigitReads(n: nat)
    requires n < 16
    ensures IsHexDigit(HexDigit(n)) && HexValue(HexDigit(n)) == n
  {
  }

  lemma Regroup<T>(a: seq<T>, b: seq<T>, c: seq<T>)
    ensures (a + b) + c == a + (b + c)
  {
  }

  lemma FromOn<T>(s: seq<T>, i: nat)
    requires i < |s|
    ensures s[i..] != [] && s[i..][0] == s[i] && s[i..][1..] == s[i + 1..]
  {
  }
}
