/** The bit searches of the chunk layer, loop by loop. */
module SlabSearch {
  import opened SlabLists
  import opened SlabTiles
  import opened SlabPages
  import opened SlabChunks

  /** Word w of a bitmap is all ones. */
  predicate WordBusy(bits: seq<bool>, w: nat)
    requires (w + 1) * WORD <= |bits|
  {
    forall i :: w * WORD <= i < (w + 1) * WORD ==> bits[i]
  }

  /** i is the first clear bit; `full` says that setting it leaves none. */
  ghost predicate FirstClear(bits: seq<bool>, i: nat, full: bool) {
    && i < |bits| && !bits[i] && (forall k :: 0 <= k < i ==> bits[k])
    && (full <==> Full(bits[i := true]))
  }

  /** The bitmap of a small page is searched word by word, and once a word fills up the
      words after it are checked. */
  method SearchWords(bits: seq<bool>) returns (i: nat, full: bool)
    requires |bits| % WORD == 0 && !Full(bits)
    ensures FirstClear(bits, i, full)
  {
    var words := |bits| / WORD;
    var w := 0;
    while w < words && WordBusy(bits, w)
      invariant w <= words && forall k :: 0 <= k < w * WORD ==> bits[k]
    {
      w := w + 1;
    }
    i := w * WORD;
    while bits[i]
      invariant w * WORD <= i < (w + 1) * WORD && w < words && !WordBusy(bits, w)
      invariant forall k :: 0 <= k < i ==> bits[k]
      decreases |bits| - i
    {
      i := i + 1;
    }
    var after := bits[i := true];
    full := WordBusy(after, w);
    if full {
      w := w + 1;
      while w < words && WordBusy(after, w)
        invariant w <= words && forall k :: 0 <= k < w * WORD ==> after[k]
      {
        w := w + 1;
      }
      full := w == words;
    }
  }

  /** The bitmap in a slab word is searched bit by bit. */
  method SearchWord(bits: seq<bool>) returns (i: nat, full: bool)
    requires !Full(bits)
    ensures FirstClear(bits, i, full)
  {
    i := 0;
    while bits[i]
      invariant i < |bits| && forall k :: 0 <= k < i ==> bits[k]
      decreases |bits| - i
    {
      i := i + 1;
    }
    full := AllSet(bits[i := true]);
  }

  method AllSet(bits: seq<bool>) returns (r: bool)
    ensures r <==> Full(bits)
  {
    for k := 0 to |bits|
      invariant forall j :: 0 <= j < k ==> bits[j]
    {
      if !bits[k] {
        return false;
      }
    }
    return true;
  }

  /** No chunk from `first` on is in use. */
  method NoneSet(bits: seq<bool>, first: nat) returns (r: bool)
    ensures r <==> !exists i :: first <= i < |bits| && bits[i]
  {
    var k := first;
    while k < |bits|
      invariant forall j :: first <= j < k && j < |bits| ==> !bits[j]
    {
      if bits[k] {
        return false;
      }
      k := k + 1;
    }
    return true;
  }

  /** x shifted right k times. */
  function Halved(x: nat, k: nat): nat {
    if k == 0 then x else Halved(x / 2, k - 1)
  }

  lemma {:induction false} HalvedOnce(x: nat, k: nat)
    ensures Halved(x, k + 1) == Halved(x, k) / 2
  {
    if k > 0 {
      HalvedOnce(x / 2, k - 1);
    }
  }

  /** Nothing is left exactly of what is less than the power of two. */
  lemma {:induction false} HalvedAway(x: nat, k: nat)
    ensures Halved(x, k) == 0 <==> x < Pow2(k)
  {
    if k > 0 {
      HalvedAway(x / 2, k - 1);
    }
  }

  /** The class of a request: the smallest power of two that holds it. */
  method ShiftFor(size: nat) returns (shift: nat)
    requires Pow2(MIN_SHIFT) < size <= MAX_SIZE
    ensures MIN_SHIFT < shift <= MAX_SHIFT && Pow2(shift - 1) < size <= Pow2(shift)
  {
    shift := 1;
    var s := (size - 1) / 2;
    HalvedOnce(size - 1, 0);
    while s != 0
      invariant 1 <= shift && s == Halved(size - 1, shift) && Halved(size - 1, shift - 1) != 0
      decreases s
    {
      HalvedOnce(size - 1, shift);
      s := s / 2;
      shift := shift + 1;
    }
    HalvedAway(size - 1, shift);
    HalvedAway(size - 1, shift - 1);
    ShiftBounds(size, shift);
  }

  lemma ShiftBounds(size: nat, shift: nat)
    requires Pow2(MIN_SHIFT) < size <= MAX_SIZE && 1 <= shift && Pow2(shift - 1) < size <= Pow2(shift)
    ensures MIN_SHIFT < shift <= MAX_SHIFT
  {
    SizeTable(MAX_SHIFT);
    PowMono(MAX_SHIFT, shift - 1);
    PowMono(shift, MIN_SHIFT);
  }

  lemma {:induction false} PowMono(a: nat, b: nat)
    ensures a <= b ==> Pow2(a) <= Pow2(b)
    ensures a > b ==> Pow2(a) >= 2 * Pow2(b)
    decreases a + b
  {
    if a < b { PowMono(a, b - 1); }
    if a > b { PowMono(a - 1, b); }
  }
}
