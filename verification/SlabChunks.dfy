/** The chunk layer: pages cut into equal power-of-two chunks, with one bit a chunk.
    A page of small chunks keeps its bitmap in its own first chunks; a page of exact
    chunks uses the whole slab word; a page of big chunks the upper half of it. */
module SlabChunks {
  import opened SlabLists
  import opened SlabTiles
  import opened SlabPages

  const PAGE_SIZE: nat := 4096
  const PAGE_SHIFT: nat := 12
  const WORD: nat := 64
  const ADDRESS_SPACE: nat := 0x1_0000_0000_0000_0000
  const MIN_SHIFT: nat := 3
  const EXACT_SHIFT: nat := 6
  const MAX_SHIFT: nat := 11
  const MAX_SIZE: nat := 2048

  function Pow2(k: nat): (r: nat)
    ensures r > 0
  {
    if k == 0 then 1 else 2 * Pow2(k - 1)
  }

  /** The nine size classes: chunk size, chunks to a page, and how many of them the
      page's own bitmap takes up. */
  function Size(shift: nat): (r: nat)
    requires MIN_SHIFT <= shift <= MAX_SHIFT
    ensures r > 0
  {
    Pow2(shift)
  }

  function Count(shift: nat): (r: nat)
    requires MIN_SHIFT <= shift <= MAX_SHIFT
  {
    Pow2(PAGE_SHIFT - shift)
  }

  function BitmapBytes(shift: nat): nat
    requires MIN_SHIFT <= shift <= MAX_SHIFT
  {
    if shift < EXACT_SHIFT then Count(shift) / 8 else 0
  }

  /** Chunks of a small page that its bitmap takes up: at least one. */
  function Header(shift: nat): (r: nat)
    requires MIN_SHIFT <= shift <= MAX_SHIFT
  {
    if shift >= EXACT_SHIFT then 0
    else if Count(shift) / 8 / Size(shift) == 0 then 1
    else Count(shift) / 8 / Size(shift)
  }

  lemma SizeTable(shift: nat)
    requires MIN_SHIFT <= shift <= MAX_SHIFT
    ensures Size(shift) == [8, 16, 32, 64, 128, 256, 512, 1024, 2048][shift - 3]
    ensures Count(shift) == [512, 256, 128, 64, 32, 16, 8, 4, 2][shift - 3]
    ensures Header(shift) == [8, 2, 1, 0, 0, 0, 0, 0, 0][shift - 3]
    ensures BitmapBytes(shift) == [64, 32, 16, 0, 0, 0, 0, 0, 0][shift - 3]
  {
    assert Pow2(3) == 8;
    assert Pow2(6) == 64;
    assert Pow2(9) == 512;
    assert Pow2(11) == 2048;
  }

  /** The bitmap of a small page fits in the chunks set aside for it, and leaves room
      in its first word for one block more. */
  lemma HeaderHoldsBitmap(shift: nat)
    requires MIN_SHIFT <= shift <= MAX_SHIFT
    ensures BitmapBytes(shift) <= Header(shift) * Size(shift)
    ensures Header(shift) + 1 < Count(shift) || (Header(shift) == 0 && Count(shift) == 2)
    ensures Size(shift) * Count(shift) == PAGE_SIZE
    ensures shift <= EXACT_SHIFT ==> Count(shift) % WORD == 0 && Header(shift) + 1 < WORD
    ensures shift > EXACT_SHIFT ==> Count(shift) <= WORD / 2
  {
    SizeTable(shift);
  }

  /** What a page descriptor, with the bitmap words in the page, says is in the page. */
  datatype View = Whole | Chunks(shift: nat, bits: seq<bool>)

  function ViewOf(d: Page, m: seq<bool>): View {
    match d.tag
    case PageTag => Whole
    case SmallTag => Chunks(d.slab, m)
    case ExactTag => Chunks(EXACT_SHIFT, d.bits)
    case BigTag => Chunks(d.slab, d.bits)
  }

  function TagOf(shift: nat): Tag {
    if shift < EXACT_SHIFT then SmallTag else if shift == EXACT_SHIFT then ExactTag else BigTag
  }

  /** The list of a size class. */
  function ClassList(shift: nat): (j: nat)
    requires MIN_SHIFT <= shift <= MAX_SHIFT
    ensures 0 < j < LISTS && ListTag(j) == TagOf(shift)
  {
    shift - MIN_SHIFT + 1
  }

  ghost predicate Full(bits: seq<bool>) { forall i :: 0 <= i < |bits| ==> bits[i] }

  ghost predicate HasLive(shift: nat, bits: seq<bool>)
    requires MIN_SHIFT <= shift <= MAX_SHIFT
  {
    exists i :: Header(shift) <= i < |bits| && bits[i]
  }

  /** The shape of a page of chunks: the class its tag says, one bit a chunk, and the
      chunks of its own bitmap marked. */
  ghost predicate ShapeOK(tag: Tag, v: View) {
    && v.Chunks? && MIN_SHIFT <= v.shift <= MAX_SHIFT && tag == TagOf(v.shift)
    && |v.bits| == Count(v.shift)
    && forall i :: 0 <= i < Header(v.shift) && i < |v.bits| ==> v.bits[i]
  }

  /** A page of chunks: a live chunk in it, and on its class list exactly when a chunk
      of it is free. */
  ghost predicate ChunkPageOK(tag: Tag, v: View, own: int) {
    && ShapeOK(tag, v)
    && HasLive(v.shift, v.bits)
    && own == if Full(v.bits) then -1 else ClassList(v.shift)
  }

  ghost predicate ChunksOK(ps: seq<Page>, mem: seq<seq<bool>>, n: nat, own: seq<int>) {
    && |ps| == n + LISTS && |mem| == |own| == n
    && forall p :: 0 <= p < n && ps[p].tag != PageTag ==> ChunkPageOK(ps[p].tag, ViewOf(ps[p], mem[p]), own[p])
  }

  // ---------- live blocks ----------

  /** The size of the live block that starts `off` bytes into page p, or 0. */
  function BlockIn(v: View, r: Run, p: nat, off: nat): (s: nat)
  {
    match v
    case Whole => if r.kind == Busy && r.start == p && off == 0 then r.len * PAGE_SIZE else 0
    case Chunks(shift, bits) =>
      if MIN_SHIFT <= shift <= MAX_SHIFT && off % Size(shift) == 0 &&
        Header(shift) <= off / Size(shift) < |bits| && bits[off / Size(shift)]
      then Size(shift) else 0
  }

  /** The size of the live block at byte a of the pool, or 0 if none starts there. */
  ghost function BlockAt(ps: seq<Page>, mem: seq<seq<bool>>, n: nat, tile: seq<Run>, a: nat): (s: nat)
    requires n <= |ps| && |mem| == |tile| == n
  {
    var p := a / PAGE_SIZE;
    if p < n then BlockIn(ViewOf(ps[p], mem[p]), tile[p], p, a % PAGE_SIZE) else 0
  }

  /** The address of chunk i of page p. */
  function ChunkAddr(p: nat, shift: nat, i: nat): (a: nat)
    requires MIN_SHIFT <= shift <= MAX_SHIFT
  {
    p * PAGE_SIZE + i * Size(shift)
  }

  lemma ChunkIndex(shift: nat, i: nat)
    requires MIN_SHIFT <= shift <= MAX_SHIFT && i < Count(shift)
    ensures i * Size(shift) < PAGE_SIZE
    ensures (i * Size(shift)) / Size(shift) == i && (i * Size(shift)) % Size(shift) == 0
    ensures i * Size(shift) + Size(shift) <= PAGE_SIZE
  {
    SizeTable(shift);
  }

  /** Where a live block of a page of chunks lies. */
  lemma ChunkBlock(tag: Tag, v: View, r: Run, p: nat, off: nat)
    requires ShapeOK(tag, v) && off < PAGE_SIZE && BlockIn(v, r, p, off) > 0
    ensures BlockIn(v, r, p, off) == Size(v.shift) && off + Size(v.shift) <= PAGE_SIZE && off % Size(v.shift) == 0
    ensures BitmapBytes(v.shift) <= off
  {
    SizeTable(v.shift);
  }

  lemma {:induction false} MultiplesRise(d: nat, q: nat, r: nat)
    requires q <= r
    ensures d * q <= d * r
    decreases r - q
  {
    if q < r {
      MultiplesRise(d, q, r - 1);
      assert d * r == d * (r - 1) + d;
    }
  }

  lemma ChunksApart(d: nat, a: nat, b: nat)
    requires d > 0 && a < b && a % d == 0 && b % d == 0
    ensures a + d <= b
  {
    var q, r := a / d, b / d;
    assert a == d * q && b == d * r;
    if q >= r {
      MultiplesRise(d, r, q);
    } else {
      MultiplesRise(d, q + 1, r);
      assert d * (q + 1) == d * q + d;
    }
  }

  /** The state the two layers keep between operations. */
  ghost predicate SlabOK(ps: seq<Page>, mem: seq<seq<bool>>, n: nat, tile: seq<Run>, ls: seq<seq<nat>>, own: seq<int>) {
    && PoolOK(ps, n, tile, ls, own)
    && NoLimbo(tile)
    && ChunksOK(ps, mem, n, own)
  }

  /** A live block lies inside the pool, and inside its run. */
  lemma BlockInside(ps: seq<Page>, mem: seq<seq<bool>>, n: nat, tile: seq<Run>, ls: seq<seq<nat>>, own: seq<int>,
      a: nat)
    requires SlabOK(ps, mem, n, tile, ls, own) && BlockAt(ps, mem, n, tile, a) > 0
    ensures a / PAGE_SIZE < n && a + BlockAt(ps, mem, n, tile, a) <= n * PAGE_SIZE
    ensures var r := tile[a / PAGE_SIZE];
      r.kind == Busy && r.start * PAGE_SIZE <= a && a + BlockAt(ps, mem, n, tile, a) <= End(r) * PAGE_SIZE
  {
    var p, off := a / PAGE_SIZE, a % PAGE_SIZE;
    Agree(tile, p, p);
    assert PageOK(ps[p], n, tile[p], own[p], p);
    var v := ViewOf(ps[p], mem[p]);
    if ps[p].tag != PageTag {
      ChunkBlock(ps[p].tag, v, tile[p], p, off);
    }
  }

  /** Two live blocks never overlap. */
  lemma BlocksDisjoint(ps: seq<Page>, mem: seq<seq<bool>>, n: nat, tile: seq<Run>, ls: seq<seq<nat>>,
      own: seq<int>, a: nat, b: nat)
    requires SlabOK(ps, mem, n, tile, ls, own) && a < b
    requires BlockAt(ps, mem, n, tile, a) > 0 && BlockAt(ps, mem, n, tile, b) > 0
    ensures a + BlockAt(ps, mem, n, tile, a) <= b
  {
    BlockInside(ps, mem, n, tile, ls, own, a);
    BlockInside(ps, mem, n, tile, ls, own, b);
    var p, q := a / PAGE_SIZE, b / PAGE_SIZE;
    if tile[p] != tile[q] {
      RunsApart(tile, p, q);
    } else {
      assert PageOK(ps[p], n, tile[p], own[p], p) && PageOK(ps[q], n, tile[q], own[q], q);
      SameRunApart(ps, mem, n, tile, own, a, b);
    }
  }

  lemma SameRunApart(ps: seq<Page>, mem: seq<seq<bool>>, n: nat, tile: seq<Run>, own: seq<int>, a: nat, b: nat)
    requires PagesOK(ps, n, tile, own) && TileOK(tile) && ChunksOK(ps, mem, n, own) && a < b
    requires BlockAt(ps, mem, n, tile, a) > 0 && BlockAt(ps, mem, n, tile, b) > 0
    requires a / PAGE_SIZE < n && b / PAGE_SIZE < n && tile[a / PAGE_SIZE] == tile[b / PAGE_SIZE]
    requires tile[a / PAGE_SIZE].kind == Busy
    ensures a + BlockAt(ps, mem, n, tile, a) <= b
  {
    var p, q := a / PAGE_SIZE, b / PAGE_SIZE;
    assert PageOK(ps[p], n, tile[p], own[p], p) && PageOK(ps[q], n, tile[q], own[q], q);
    Agree(tile, p, p);
    Agree(tile, q, q);
    if ps[p].tag != PageTag {
      var v := ViewOf(ps[p], mem[p]);
      ChunkBlock(ps[p].tag, v, tile[p], p, a % PAGE_SIZE);
      ChunkBlock(ps[p].tag, v, tile[p], p, b % PAGE_SIZE);
      ChunksApart(Size(v.shift), a % PAGE_SIZE, b % PAGE_SIZE);
    }
  }

  /** No live block touches the bitmap that a page of small chunks keeps in itself. */
  lemma BitmapSafe(ps: seq<Page>, mem: seq<seq<bool>>, n: nat, tile: seq<Run>, ls: seq<seq<nat>>, own: seq<int>,
      a: nat, p: nat)
    requires SlabOK(ps, mem, n, tile, ls, own) && BlockAt(ps, mem, n, tile, a) > 0
    requires p < n && ps[p].tag == SmallTag
    ensures MIN_SHIFT <= ps[p].slab < EXACT_SHIFT
    ensures a + BlockAt(ps, mem, n, tile, a) <= p * PAGE_SIZE || a >= p * PAGE_SIZE + BitmapBytes(ps[p].slab)
  {
    BlockInside(ps, mem, n, tile, ls, own, a);
    var q := a / PAGE_SIZE;
    assert PageOK(ps[p], n, tile[p], own[p], p) && PageOK(ps[q], n, tile[q], own[q], q);
    HeaderHoldsBitmap(ps[p].slab);
    SizeTable(ps[p].slab);
    Agree(tile, p, p);
    Agree(tile, q, q);
    if q == p {
      ChunkBlock(ps[p].tag, ViewOf(ps[p], mem[p]), tile[p], p, a % PAGE_SIZE);
    } else {
      Agree(tile, q, p);
    }
  }

  // ---------- one chunk taken or given back ----------

  /** Blocks before and after agree everywhere but at addr. */
  ghost predicate BlocksBut(ps: seq<Page>, mem: seq<seq<bool>>, tile: seq<Run>, ps': seq<Page>,
      mem': seq<seq<bool>>, tile': seq<Run>,
                            n: nat, addr: nat)
    requires n <= |ps| && |mem| == |tile| == n && n <= |ps'| && |mem'| == |tile'| == n
  {
    forall a: nat :: a != addr ==> BlockAt(ps', mem', n, tile', a) == BlockAt(ps, mem, n, tile, a)
  }

  /** Only page p's bitmap changed, and only at chunk i. */
  ghost predicate BitChange(ps: seq<Page>, mem: seq<seq<bool>>, ps': seq<Page>, mem': seq<seq<bool>>, n: nat,
      p: nat, i: nat, b: bool)
    requires |ps| == |ps'| == n + LISTS && |mem| == |mem'| == n && p < n
  {
    var v := ViewOf(ps[p], mem[p]);
    && v.Chunks? && i < |v.bits|
    && ps'[p].tag == ps[p].tag
    && ViewOf(ps'[p], mem'[p]) == Chunks(v.shift, v.bits[i := b])
    && forall q :: 0 <= q < n && q != p ==> ps'[q].tag == ps[q].tag && ViewOf(ps'[q], mem'[q]) == ViewOf(ps[q], mem[q])
  }

  lemma BitBlock(v: View, r: Run, p: nat, i: nat, b: bool, off: nat)
    requires v.Chunks? && MIN_SHIFT <= v.shift <= MAX_SHIFT && |v.bits| == Count(v.shift)
    requires Header(v.shift) <= i < |v.bits|
    ensures var v' := Chunks(v.shift, v.bits[i := b]);
      BlockIn(v', r, p, off) == if off == i * Size(v.shift) then (if b then Size(v.shift) else 0)
        else BlockIn(v, r, p, off)
  {
    SizeTable(v.shift);
  }

  lemma BitBlocks(ps: seq<Page>, mem: seq<seq<bool>>, ps': seq<Page>, mem': seq<seq<bool>>, n: nat, tile: seq<Run>,
                  p: nat, i: nat, b: bool, shift: nat, addr: nat)
    requires |ps| == |ps'| == n + LISTS && |mem| == |mem'| == |tile| == n && p < n
    requires BitChange(ps, mem, ps', mem', n, p, i, b) && ShapeOK(ps[p].tag, ViewOf(ps[p], mem[p]))
    requires shift == ViewOf(ps[p], mem[p]).shift && Header(shift) <= i < Count(shift)
    requires addr == p * PAGE_SIZE + i * Size(shift)
    ensures addr / PAGE_SIZE == p && addr % PAGE_SIZE == i * Size(shift)
    ensures BlockAt(ps', mem', n, tile, addr) == if b then Size(shift) else 0
    ensures BlockAt(ps, mem, n, tile, addr) == if ViewOf(ps[p], mem[p]).bits[i] then Size(shift) else 0
    ensures BlocksBut(ps, mem, tile, ps', mem', tile, n, addr)
  {
    ChunkIndex(shift, i);
    var v, off := ViewOf(ps[p], mem[p]), i * Size(shift);
    assert addr / PAGE_SIZE == p && addr % PAGE_SIZE == off;
    BitBlock(v, tile[p], p, i, b, off);
    forall a: nat | a != addr ensures BlockAt(ps', mem', n, tile, a) == BlockAt(ps, mem, n, tile, a) {
      var q, at := a / PAGE_SIZE, a % PAGE_SIZE;
      if q == p {
        assert at != off;
        BitBlock(v, tile[p], p, i, b, at);
      }
    }
  }

  /** What the chunk layer's invariant needs after a bit changed: the page still holds a
      live chunk, and is on its list exactly when it has a free one. */
  lemma BitChunks(ps: seq<Page>, mem: seq<seq<bool>>, ps': seq<Page>, mem': seq<seq<bool>>, n: nat,
      own: seq<int>, own': seq<int>, p: nat, i: nat, b: bool)
    requires |ps| == |ps'| == n + LISTS && |mem| == |mem'| == n && p < n && ps[p].tag != PageTag
    requires ChunksOK(ps, mem, n, own) && BitChange(ps, mem, ps', mem', n, p, i, b)
    requires |own'| == n && forall q :: 0 <= q < n && q != p ==> own'[q] == own[q]
    requires var v := ViewOf(ps'[p], mem'[p]);
      MIN_SHIFT <= v.shift <= MAX_SHIFT && Header(v.shift) <= i && HasLive(v.shift, v.bits)
      && own'[p] == if Full(v.bits) then -1 else ClassList(v.shift)
    ensures ChunksOK(ps', mem', n, own')
  {
    assert ChunkPageOK(ps[p].tag, ViewOf(ps[p], mem[p]), own[p]);
    forall q | 0 <= q < n && ps'[q].tag != PageTag ensures ChunkPageOK(ps'[q].tag, ViewOf(ps'[q], mem'[q]), own'[q]) {
      if q != p {
        assert ps'[q].tag == ps[q].tag;
        assert ChunkPageOK(ps[q].tag, ViewOf(ps[q], mem[q]), own[q]);
      }
    }
  }

  // ---------- whole runs taken or given back ----------

  /** A run of pages is taken: its head is a live block, and no other block changed. */
  lemma TakenBlocks(ps: seq<Page>, ps': seq<Page>, mem: seq<seq<bool>>, n: nat, tile: seq<Run>, own: seq<int>,
      own': seq<int>, h: nat, k: nat, addr: nat)
    requires PagesOK(ps, n, tile, own) && TileOK(tile) && |mem| == n && NoLimbo(tile)
    requires h < n && tile[h].start == h && tile[h].kind == Free && 0 < k <= tile[h].len
    requires PagesOK(ps', n, Taken(tile, h, k), own') && KeepsBusy(ps, ps', n, tile, own, own') && BusyRun(ps', h, k)
    requires addr == h * PAGE_SIZE
    ensures BlockAt(ps', mem, n, Taken(tile, h, k), addr) == k * PAGE_SIZE && BlockAt(ps, mem, n, tile, addr) == 0
    ensures BlocksBut(ps, mem, tile, ps', mem, Taken(tile, h, k), n, addr)
  {
    var t := Taken(tile, h, k);
    forall p: nat, off: nat | p < n && off < PAGE_SIZE
      ensures BlockIn(ViewOf(ps'[p], mem[p]), t[p], p, off) ==
              if p == h && off == 0 then k * PAGE_SIZE else BlockIn(ViewOf(ps[p], mem[p]), tile[p], p, off)
      ensures p == h ==> BlockIn(ViewOf(ps[p], mem[p]), tile[p], p, off) == 0
    {
      TakenBlock(ps, ps', mem, n, tile, own, own', h, k, p, off);
    }
    assert addr / PAGE_SIZE == h && addr % PAGE_SIZE == 0;
  }

  lemma TakenBlock(ps: seq<Page>, ps': seq<Page>, mem: seq<seq<bool>>, n: nat, tile: seq<Run>, own: seq<int>,
      own': seq<int>, h: nat, k: nat, p: nat, off: nat)
    requires PagesOK(ps, n, tile, own) && TileOK(tile) && |mem| == n && NoLimbo(tile)
    requires h < n && tile[h].start == h && tile[h].kind == Free && 0 < k <= tile[h].len
    requires PagesOK(ps', n, Taken(tile, h, k), own') && KeepsBusy(ps, ps', n, tile, own, own') && BusyRun(ps', h, k)
    requires p < n
    ensures BlockIn(ViewOf(ps'[p], mem[p]), Taken(tile, h, k)[p], p, off) ==
            if p == h && off == 0 then k * PAGE_SIZE else BlockIn(ViewOf(ps[p], mem[p]), tile[p], p, off)
    ensures p == h ==> BlockIn(ViewOf(ps[p], mem[p]), tile[p], p, off) == 0
  {
    var y := h + k;
    TakeAt(tile, h, y, p);
    Agree(tile, h, p);
    Agree(tile, h, h);
    assert PageOK(ps[p], n, tile[p], own[p], p);
    assert PageOK(ps'[p], n, Taken(tile, h, k)[p], own'[p], p);
    if tile[p].kind == Busy {
      assert ViewOf(ps'[p], mem[p]) == ViewOf(ps[p], mem[p]) && Taken(tile, h, k)[p] == tile[p];
    } else {
      assert ViewOf(ps'[p], mem[p]) == ViewOf(ps[p], mem[p]) == Whole;
    }
  }

  /** A run that holds no live block but, perhaps, its own whole is given back. */
  lemma ReleasedBlocks(ps: seq<Page>, ps': seq<Page>, mem: seq<seq<bool>>, n: nat, tile: seq<Run>, own: seq<int>,
      own': seq<int>, h: nat, addr: nat)
    requires PagesOK(ps, n, tile, own) && TileOK(tile) && |mem| == n && NoLimbo(tile)
    requires h < n && tile[h].start == h && tile[h].kind == Busy && InRun(tile[h], h)
    requires PagesOK(ps', n, Release(tile, h), own') && KeepsBusy(ps, ps', n, Flip(tile, h, Limbo), own, own')
    requires forall a: nat :: a / PAGE_SIZE == h && a != addr ==> BlockAt(ps, mem, n, tile, a) == 0
    requires addr / PAGE_SIZE == h
    ensures BlockAt(ps', mem, n, Release(tile, h), addr) == 0
    ensures BlocksBut(ps, mem, tile, ps', mem, Release(tile, h), n, addr)
  {
    var t := Release(tile, h);
    forall a: nat
      ensures BlockAt(ps', mem, n, t, a) == if a / PAGE_SIZE == h then 0 else BlockAt(ps, mem, n, tile, a)
    {
      if a / PAGE_SIZE < n {
        ReleasedBlock(ps, ps', mem, n, tile, own, own', h, a / PAGE_SIZE, a % PAGE_SIZE);
      }
    }
  }

  lemma ReleasedBlock(ps: seq<Page>, ps': seq<Page>, mem: seq<seq<bool>>, n: nat, tile: seq<Run>, own: seq<int>,
      own': seq<int>, h: nat, p: nat, off: nat)
    requires PagesOK(ps, n, tile, own) && TileOK(tile) && |mem| == n && NoLimbo(tile)
    requires h < n && tile[h].start == h && tile[h].kind == Busy && InRun(tile[h], h)
    requires PagesOK(ps', n, Release(tile, h), own') && KeepsBusy(ps, ps', n, Flip(tile, h, Limbo), own, own')
    requires p < n
    ensures BlockIn(ViewOf(ps'[p], mem[p]), Release(tile, h)[p], p, off) ==
            if p == h then 0 else BlockIn(ViewOf(ps[p], mem[p]), tile[p], p, off)
  {
    MergedAt(tile, h, p);
    ReleaseKinds(tile, h, p);
    Agree(tile, h, p);
    assert PageOK(ps[p], n, tile[p], own[p], p);
    assert PageOK(ps'[p], n, Release(tile, h)[p], own'[p], p);
  }

  /** The chunk layer's invariant, but for page h. */
  ghost predicate ChunksBut(ps: seq<Page>, mem: seq<seq<bool>>, n: nat, own: seq<int>, h: nat) {
    && |ps| == n + LISTS && |mem| == |own| == n
    && forall p :: 0 <= p < n && p != h && ps[p].tag != PageTag ==>
      ChunkPageOK(ps[p].tag, ViewOf(ps[p], mem[p]), own[p])
  }

  lemma TakenChunks(ps: seq<Page>, ps': seq<Page>, mem: seq<seq<bool>>, n: nat, tile: seq<Run>, own: seq<int>,
      own': seq<int>, h: nat, k: nat)
    requires PagesOK(ps, n, tile, own) && TileOK(tile) && ChunksOK(ps, mem, n, own) && NoLimbo(tile)
    requires h < n && tile[h].start == h && tile[h].kind == Free && 0 < k <= tile[h].len
    requires PagesOK(ps', n, Taken(tile, h, k), own') && KeepsBusy(ps, ps', n, tile, own, own') && BusyRun(ps', h, k)
    ensures ChunksOK(ps', mem, n, own')
  {
    forall p | 0 <= p < n && ps'[p].tag != PageTag ensures ChunkPageOK(ps'[p].tag, ViewOf(ps'[p], mem[p]), own'[p]) {
      TakeAt(tile, h, h + k, p);
      Agree(tile, h, p);
      assert PageOK(ps[p], n, tile[p], own[p], p);
      assert PageOK(ps'[p], n, Taken(tile, h, k)[p], own'[p], p);
      assert ChunkPageOK(ps[p].tag, ViewOf(ps[p], mem[p]), own[p]);
    }
  }

  lemma ReleasedChunks(ps: seq<Page>, ps': seq<Page>, mem: seq<seq<bool>>, n: nat, tile: seq<Run>, own: seq<int>,
      own': seq<int>, h: nat)
    requires PagesOK(ps, n, tile, own) && TileOK(tile) && ChunksBut(ps, mem, n, own, h) && NoLimbo(tile)
    requires h < n && tile[h].start == h && tile[h].kind == Busy && InRun(tile[h], h)
    requires PagesOK(ps', n, Release(tile, h), own') && KeepsBusy(ps, ps', n, Flip(tile, h, Limbo), own, own')
    ensures ChunksOK(ps', mem, n, own')
  {
    forall p | 0 <= p < n && ps'[p].tag != PageTag ensures ChunkPageOK(ps'[p].tag, ViewOf(ps'[p], mem[p]), own'[p]) {
      MergedAt(tile, h, p);
      ReleaseKinds(tile, h, p);
      Agree(tile, h, p);
      assert PageOK(ps[p], n, tile[p], own[p], p);
      assert PageOK(ps'[p], n, Release(tile, h)[p], own'[p], p);
      assert ChunkPageOK(ps[p].tag, ViewOf(ps[p], mem[p]), own[p]);
    }
  }

  /** One block of `size` bytes appeared at addr, where there was none. */
  ghost predicate Gained(ps: seq<Page>, mem: seq<seq<bool>>, tile: seq<Run>, ps': seq<Page>,
      mem': seq<seq<bool>>, tile': seq<Run>,
                         n: nat, addr: nat, size: nat)
    requires n <= |ps| && |mem| == |tile| == n && n <= |ps'| && |mem'| == |tile'| == n
  {
    && BlockAt(ps, mem, n, tile, addr) == 0 && BlockAt(ps', mem', n, tile', addr) == size
    && BlocksBut(ps, mem, tile, ps', mem', tile', n, addr)
  }

  /** The block at addr is gone. */
  ghost predicate Lost(ps: seq<Page>, mem: seq<seq<bool>>, tile: seq<Run>, ps': seq<Page>, mem': seq<seq<bool>>,
      tile': seq<Run>, n: nat, addr: nat)
    requires n <= |ps| && |mem| == |tile| == n && n <= |ps'| && |mem'| == |tile'| == n
  {
    && BlockAt(ps, mem, n, tile, addr) > 0 && BlockAt(ps', mem', n, tile', addr) == 0
    && BlocksBut(ps, mem, tile, ps', mem', tile', n, addr)
  }

  lemma BitChangeWords(ps: seq<Page>, mem: seq<seq<bool>>, u: seq<Page>, mem': seq<seq<bool>>, r: seq<Page>,
      n: nat, p: nat, i: nat, b: bool)
    requires |ps| == |u| == |r| == n + LISTS && |mem| == |mem'| == n && p < n
    requires BitChange(ps, mem, u, mem', n, p, i, b) && SameWords(u, r, n)
    ensures BitChange(ps, mem, r, mem', n, p, i, b)
  {}

  lemma WordsBitChange(ps: seq<Page>, mem: seq<seq<bool>>, u: seq<Page>, mem': seq<seq<bool>>, r: seq<Page>,
      n: nat, p: nat, i: nat, b: bool)
    requires |ps| == |u| == |r| == n + LISTS && |mem| == |mem'| == n && p < n
    requires SameWords(ps, u, n) && BitChange(u, mem, r, mem', n, p, i, b)
    ensures BitChange(ps, mem, r, mem', n, p, i, b)
  {}

  /** A chunk was taken: the invariant and the blocks afterwards. */
  lemma TakenChunk(ps: seq<Page>, mem: seq<seq<bool>>, ps': seq<Page>, mem': seq<seq<bool>>, n: nat, tile: seq<Run>,
                   own: seq<int>, own': seq<int>, p: nat, shift: nat, i: nat, full: bool, addr: nat)
    requires |ps| == |ps'| == n + LISTS && |mem| == |mem'| == |tile| == |own| == n && p < n
    requires ps[p].tag != PageTag && ChunksOK(ps, mem, n, own) && shift == ViewOf(ps[p], mem[p]).shift
    requires BitChange(ps, mem, ps', mem', n, p, i, true) && !ViewOf(ps[p], mem[p]).bits[i]
    requires full <==> Full(ViewOf(ps[p], mem[p]).bits[i := true])
    requires own' == if full then own[p := -1] else own
    requires MIN_SHIFT <= shift <= MAX_SHIFT && i < Count(shift) && addr == p * PAGE_SIZE + i * Size(shift)
    ensures ChunksOK(ps', mem', n, own')
    ensures Gained(ps, mem, tile, ps', mem', tile, n, addr, Size(shift))
  {
    var v := ViewOf(ps[p], mem[p]);
    assert ChunkPageOK(ps[p].tag, v, own[p]);
    assert v.bits[i := true][i];
    BitChunks(ps, mem, ps', mem', n, own, own', p, i, true);
    BitBlocks(ps, mem, ps', mem', n, tile, p, i, true, shift, addr);
  }

  /** The first bits of a fresh page of chunks: its bitmap's own, and the block given out. */
  function FreshBits(shift: nat): (bits: seq<bool>)
    requires MIN_SHIFT <= shift <= MAX_SHIFT
    ensures |bits| == Count(shift)
  {
    seq(Count(shift), i => i <= Header(shift))
  }

  lemma FreshBlock(shift: nat, r: Run, p: nat, off: nat)
    requires MIN_SHIFT <= shift <= MAX_SHIFT && off < PAGE_SIZE
    ensures BlockIn(Chunks(shift, FreshBits(shift)), r, p, off) == if off == Header(shift) * Size(shift)
      then Size(shift) else 0
    ensures Header(shift) * Size(shift) < PAGE_SIZE
    ensures HasLive(shift, FreshBits(shift)) && !Full(FreshBits(shift))
    ensures ShapeOK(TagOf(shift), Chunks(shift, FreshBits(shift)))
  {
    SizeTable(shift);
    assert FreshBits(shift)[Header(shift)];
    assert !FreshBits(shift)[Header(shift) + 1];
  }

  /** A page just taken is cut into chunks and one is given out. */
  lemma FreshPage(ps: seq<Page>, u: seq<Page>, r: seq<Page>, mem: seq<seq<bool>>, mem': seq<seq<bool>>, n: nat,
      tile: seq<Run>, t: seq<Run>, own: seq<int>, own': seq<int>, h: nat, shift: nat, base: nat, addr: nat)
    requires |ps| == |u| == |r| == n + LISTS && |mem| == |mem'| == |tile| == |t| == n && |own| == |own'| == n && h < n
    requires MIN_SHIFT <= shift <= MAX_SHIFT && addr == ChunkAddr(h, shift, Header(shift))
    requires base == h * PAGE_SIZE && BlocksBut(ps, mem, tile, u, mem, t, n, base) &&
      BlockAt(ps, mem, n, tile, base) == 0
    requires ChunksOK(u, mem, n, own) && u[h].tag == PageTag && t[h] == Run(h, 1, Busy)
    requires r[h].tag == TagOf(shift) && ViewOf(r[h], mem'[h]) == Chunks(shift, FreshBits(shift))
    requires forall q :: 0 <= q < n && q != h ==> r[q].tag == u[q].tag && ViewOf(r[q], mem'[q]) == ViewOf(u[q], mem[q])
    requires own' == own[h := ClassList(shift)]
    ensures ChunksOK(r, mem', n, own')
    ensures Gained(ps, mem, tile, r, mem', t, n, addr, Size(shift))
  {
    FreshBlock(shift, t[h], h, 0);
    forall q | 0 <= q < n && r[q].tag != PageTag ensures ChunkPageOK(r[q].tag, ViewOf(r[q], mem'[q]), own'[q]) {
      if q != h {
        assert ChunkPageOK(u[q].tag, ViewOf(u[q], mem[q]), own[q]);
      }
    }
    var off := Header(shift) * Size(shift);
    forall a: nat ensures BlockAt(r, mem', n, t, a) == if a == addr then Size(shift) else BlockAt(ps, mem, n, tile, a) {
      if a / PAGE_SIZE == h {
        FreshAt(r[h], mem'[h], t[h], h, shift, off, a % PAGE_SIZE);
        assert a == base || BlockAt(u, mem, n, t, a) == 0;
      } else {
        assert a != base && BlockAt(u, mem, n, t, a) == BlockAt(ps, mem, n, tile, a);
      }
    }
    assert addr / PAGE_SIZE == h;
    assert addr == base || BlockAt(u, mem, n, t, addr) == 0;
  }

  /** The blocks of a fresh page of chunks. */
  lemma FreshAt(page: Page, word: seq<bool>, run: Run, h: nat, shift: nat, off: nat, at: nat)
    requires MIN_SHIFT <= shift <= MAX_SHIFT && ViewOf(page, word) == Chunks(shift, FreshBits(shift))
    requires off == Header(shift) * Size(shift) && at < PAGE_SIZE
    ensures BlockIn(ViewOf(page, word), run, h, at) == if at == off then Size(shift) else 0
  {
    FreshBlock(shift, run, h, at);
  }

  /** With its last live chunk gone, a page holds no block. */
  lemma EmptyPage(v: View, r: Run, p: nat, off: nat)
    requires v.Chunks? && MIN_SHIFT <= v.shift <= MAX_SHIFT && !HasLive(v.shift, v.bits)
    ensures BlockIn(v, r, p, off) == 0
  {}

  /** Taking a page from the runs does not put one on a class list. */
  lemma ClassStaysEmpty(ps: seq<Page>, ps': seq<Page>, n: nat, tile: seq<Run>, ls: seq<seq<nat>>, ls': seq<seq<nat>>,
                        own: seq<int>, own': seq<int>, h: nat, j: nat)
    requires PoolOK(ps, n, tile, ls, own) && 0 < j < LISTS && ls[j] == []
    requires h < n && tile[h].start == h && tile[h].kind == Free && tile[h].len >= 1
    requires PoolOK(ps', n, Taken(tile, h, 1), ls', own') && KeepsBusy(ps, ps', n, tile, own, own') && own'[h] == -1
    ensures ls'[j] == []
  {
    assert ListOK(ps', n, j, ls'[j]);
    forall p | 0 <= p < n ensures own'[p] != j {
      assert PageOK(ps'[p], n, Taken(tile, h, 1)[p], own'[p], p);
      TakeAt(tile, h, h + 1, p);
      Agree(tile, h, p);
      assert p !in ls[j];
    }
    assert forall p :: p in ls'[j] ==> p < n;
  }

  lemma NoFreeRun(tile: seq<Run>, n: nat)
    requires TileOK(tile) && |tile| == n
    requires forall p :: 0 <= p < n && tile[p].kind == Free ==> tile[p].len < 1
    ensures forall p :: 0 <= p < n ==> tile[p].kind != Free
  {
    forall p | 0 <= p < n ensures tile[p].kind != Free { Agree(tile, p, p); }
  }

  // ---------- what the callers see ----------

  /** The block given for a request: big enough, and not wasteful. */
  ghost predicate Fits(size: nat, block: nat) {
    && size <= block
    && (size > MAX_SIZE ==> block % PAGE_SIZE == 0 && block < size + PAGE_SIZE)
    && (size <= MAX_SIZE ==> block == 8 || block < 2 * size)
  }

  /** Nothing left for a request: no run of enough pages; or no page at all, and every
      page of the smallest class that would do is full. */
  ghost predicate Exhausted(ps: seq<Page>, mem: seq<seq<bool>>, n: nat, tile: seq<Run>, size: nat)
    requires n <= |ps| && |mem| == |tile| == n
  {
    if size > MAX_SIZE then forall p :: 0 <= p < n && tile[p].kind == Free ==> tile[p].len * PAGE_SIZE < size
    else
      && (forall p :: 0 <= p < n ==> tile[p].kind != Free)
      && forall p :: 0 <= p < n ==>
           match ViewOf(ps[p], mem[p])
           case Whole => true
           case Chunks(shift, bits) => MIN_SHIFT <= shift <= MAX_SHIFT && Fits(size, Size(shift)) ==> Full(bits)
  }

  lemma ClassExhausted(ps: seq<Page>, mem: seq<seq<bool>>, n: nat, tile: seq<Run>, ls: seq<seq<nat>>,
      own: seq<int>, size: nat, shift: nat)
    requires PoolOK(ps, n, tile, ls, own) && ChunksOK(ps, mem, n, own)
    requires forall p :: 0 <= p < n ==> tile[p].kind != Free
    requires MIN_SHIFT <= shift <= MAX_SHIFT && size <= MAX_SIZE && Fits(size, Size(shift)) &&
      ls[ClassList(shift)] == []
    ensures Exhausted(ps, mem, n, tile, size)
  {
    forall p | 0 <= p < n && ViewOf(ps[p], mem[p]).Chunks?
      ensures var v := ViewOf(ps[p], mem[p]);
        MIN_SHIFT <= v.shift <= MAX_SHIFT && Fits(size, Size(v.shift)) ==> Full(v.bits)
    {
      var v := ViewOf(ps[p], mem[p]);
      assert ChunkPageOK(ps[p].tag, v, own[p]);
      assert p !in ls[ClassList(shift)] && own[p] != ClassList(shift);
      if Fits(size, Size(v.shift)) {
        OneClassFits(size, shift, v.shift);
      }
    }
  }

  lemma OneClassFits(size: nat, a: nat, b: nat)
    requires MIN_SHIFT <= a <= MAX_SHIFT && MIN_SHIFT <= b <= MAX_SHIFT && size <= MAX_SIZE
    requires Fits(size, Size(a)) && Fits(size, Size(b))
    ensures a == b
  {
    SizeTable(a);
    SizeTable(b);
  }

  /** The first page of a class list, if there is one. */
  lemma ClassHead(ps: seq<Page>, n: nat, ls: seq<seq<nat>>, own: seq<int>, j: nat, s: nat)
    requires ListsOK(ps, n, ls, own) && 0 < j < LISTS && s == n + j
    ensures 0 <= ps[s].next < |ps|
    ensures var p := ps[s].next; ps[p].next != p <==> ls[j] != []
    ensures ls[j] != [] ==> var p := ps[s].next; p < n && own[p] == j
  {
    var l := ls[j];
    assert ListOK(ps, n, j, l);
    if l != [] {
      assert l[0] in l && ps[l[0]].next == After(s, l, 0);
    }
  }

  lemma ClassPage(ps: seq<Page>, mem: seq<seq<bool>>, n: nat, tile: seq<Run>, own: seq<int>, p: nat, shift: nat)
    requires PagesOK(ps, n, tile, own) && TileOK(tile) && NoLimbo(tile) && ChunksOK(ps, mem, n, own)
    requires MIN_SHIFT <= shift <= MAX_SHIFT && p < n && own[p] == ClassList(shift)
    ensures tile[p].kind == Busy && ShapeOK(ps[p].tag, ViewOf(ps[p], mem[p])) && ViewOf(ps[p], mem[p]).shift == shift
  {
    assert PageOK(ps[p], n, tile[p], own[p], p);
    assert ChunkPageOK(ps[p].tag, ViewOf(ps[p], mem[p]), own[p]);
  }

  /** Whole pages for a large request. */
  function PagesFor(size: nat): (k: nat)
    ensures size <= k * PAGE_SIZE < size + PAGE_SIZE
  {
    size / PAGE_SIZE + if size % PAGE_SIZE != 0 then 1 else 0
  }

  lemma PagesFit(size: nat, k: nat)
    requires size > MAX_SIZE && k == PagesFor(size)
    ensures k > 0 && Fits(size, k * PAGE_SIZE)
  {}

  lemma RunExhausted(ps: seq<Page>, mem: seq<seq<bool>>, n: nat, tile: seq<Run>, size: nat, k: nat)
    requires n <= |ps| && |mem| == |tile| == n && size > MAX_SIZE && k == PagesFor(size)
    requires forall p :: 0 <= p < n && tile[p].kind == Free ==> tile[p].len < k
    ensures Exhausted(ps, mem, n, tile, size)
  {}

  // ---------- freeing ----------

  /** What nchan_slab_free_locked reports. */
  datatype FreeResult = Freed | OutsideOfPool | WrongChunk | AlreadyFree | PageAlreadyFree | WrongPage

  /** Two misuses that the code does not notice: the head of a free run, and a chunk
      that belongs to a page's own bitmap. */
  ghost predicate Unnoticed(ps: seq<Page>, mem: seq<seq<bool>>, n: nat, tile: seq<Run>, addr: int)
    requires n <= |ps| && |mem| == |tile| == n
  {
    && 0 <= addr && addr / PAGE_SIZE < n
    && var p, off := addr / PAGE_SIZE, addr % PAGE_SIZE;
      match ViewOf(ps[p], mem[p])
      case Whole => tile[p].kind == Free && tile[p].start == p && off == 0
      case Chunks(shift, bits) =>
        MIN_SHIFT <= shift <= MAX_SHIFT && off % Size(shift) == 0 && off / Size(shift) < Header(shift)
  }

  /** What giving back such an address does.  The run stays free, and no block comes or goes,
      but its pages are taken off the count once more; of the bitmap's own chunk, the bit
      that keeps it from being handed out is cleared. */
  ghost predicate Misled(ps: seq<Page>, mem: seq<seq<bool>>, tile: seq<Run>, reserved: int,
      ps': seq<Page>, mem': seq<seq<bool>>, tile': seq<Run>, reserved': int, n: nat, addr: nat)
    requires |ps| == |ps'| == n + LISTS && |mem| == |mem'| == |tile| == |tile'| == n && addr / PAGE_SIZE < n
  {
    var p := addr / PAGE_SIZE;
    && tile' == tile
    && (forall a: nat :: BlockAt(ps', mem', n, tile', a) == BlockAt(ps, mem, n, tile, a))
    && match ViewOf(ps[p], mem[p])
       case Whole => mem' == mem && reserved' == reserved - tile[p].len
       case Chunks(shift, bits) =>
         && MIN_SHIFT <= shift <= MAX_SHIFT && reserved' == reserved
         && exists i: nat :: ChunkAddr(p, shift, i) == addr && BitChange(ps, mem, ps', mem', n, p, i, false)
  }

  /** What is at an address in a page of chunks: nothing, or chunk i. */
  lemma ChunkAtAddr(ps: seq<Page>, mem: seq<seq<bool>>, n: nat, tile: seq<Run>, p: nat, shift: nat, i: int, addr: nat)
    requires |ps| == n + LISTS && |mem| == |tile| == n && p < n && ShapeOK(ps[p].tag, ViewOf(ps[p], mem[p]))
    requires shift == ViewOf(ps[p], mem[p]).shift && addr / PAGE_SIZE == p
    requires var off := addr % PAGE_SIZE;
      if i == NULL then off % Size(shift) != 0 else 0 <= i < Count(shift) && off == i * Size(shift)
    ensures i == NULL ==> BlockAt(ps, mem, n, tile, addr) == 0 && !Unnoticed(ps, mem, n, tile, addr)
    ensures i != NULL ==>
      && addr == ChunkAddr(p, shift, i)
      && (Unnoticed(ps, mem, n, tile, addr) <==> i < Header(shift))
      && (BlockAt(ps, mem, n, tile, addr) > 0 <==> Header(shift) <= i && ViewOf(ps[p], mem[p]).bits[i])
      && (i < Header(shift) ==> ViewOf(ps[p], mem[p]).bits[i])
  {
    if i != NULL {
      ChunkIndex(shift, i);
    }
  }

  /** A bit of the bitmap's own chunks is no block's. */
  lemma HeaderBlocks(ps: seq<Page>, mem: seq<seq<bool>>, ps': seq<Page>, mem': seq<seq<bool>>, n: nat, tile: seq<Run>,
      own: seq<int>, own': seq<int>, p: nat, i: nat)
    requires |ps| == |ps'| == n + LISTS && |mem| == |mem'| == |tile| == |own'| == n && p < n
    requires ChunksOK(ps, mem, n, own) && BitChange(ps, mem, ps', mem', n, p, i, false)
    requires var v := ViewOf(ps[p], mem[p]); MIN_SHIFT <= v.shift <= MAX_SHIFT && i < Header(v.shift)
    ensures forall a: nat :: BlockAt(ps', mem', n, tile, a) == BlockAt(ps, mem, n, tile, a)
    ensures !ChunksOK(ps', mem', n, own')
  {
    var v' := ViewOf(ps'[p], mem'[p]);
    assert !v'.bits[i] && !ShapeOK(ps'[p].tag, v');
    forall a: nat ensures BlockAt(ps', mem', n, tile, a) == BlockAt(ps, mem, n, tile, a) {
      var q := a / PAGE_SIZE;
      if q < n && q != p {
        assert ViewOf(ps'[q], mem'[q]) == ViewOf(ps[q], mem[q]);
      }
    }
  }

  /** Taking a free run off the list and putting it back changes no block. */
  lemma AgainBlocks(ps: seq<Page>, ps': seq<Page>, mem: seq<seq<bool>>, n: nat, tile: seq<Run>, own: seq<int>,
      own': seq<int>, p: nat)
    requires PagesOK(ps, n, tile, own) && TileOK(tile) && NoLimbo(tile) && ChunksOK(ps, mem, n, own)
    requires p < n && tile[p].start == p && tile[p].kind == Free
    requires PagesOK(ps', n, tile, own') && KeepsBusy(ps, ps', n, Flip(tile, p, Limbo), own, own')
    ensures forall a: nat :: BlockAt(ps', mem, n, tile, a) == BlockAt(ps, mem, n, tile, a)
    ensures ChunksOK(ps', mem, n, own')
  {
    forall q | 0 <= q < n
      ensures ps'[q].tag == ps[q].tag && ViewOf(ps'[q], mem[q]) == ViewOf(ps[q], mem[q])
      ensures ps[q].tag != PageTag ==> own'[q] == own[q]
    {
      Agree(tile, p, q);
      assert PageOK(ps[q], n, tile[q], own[q], q) && PageOK(ps'[q], n, tile[q], own'[q], q);
    }
    forall q | 0 <= q < n && ps'[q].tag != PageTag ensures ChunkPageOK(ps'[q].tag, ViewOf(ps'[q], mem[q]), own'[q]) {
      assert ChunkPageOK(ps[q].tag, ViewOf(ps[q], mem[q]), own[q]);
    }
  }

  /** A chunk was given back and its page still holds another. */
  lemma FreedChunk(ps: seq<Page>, mem: seq<seq<bool>>, ps': seq<Page>, mem': seq<seq<bool>>, n: nat, tile: seq<Run>,
                   own: seq<int>, own': seq<int>, p: nat, shift: nat, i: nat, addr: nat)
    requires |ps| == |ps'| == n + LISTS && |mem| == |mem'| == |tile| == |own| == n && p < n
    requires ps[p].tag != PageTag && ChunksOK(ps, mem, n, own) && shift == ViewOf(ps[p], mem[p]).shift
    requires BitChange(ps, mem, ps', mem', n, p, i, false) && ViewOf(ps[p], mem[p]).bits[i]
    requires MIN_SHIFT <= shift <= MAX_SHIFT && Header(shift) <= i < Count(shift) &&
      addr == p * PAGE_SIZE + i * Size(shift)
    requires own' == own[p := ClassList(shift)]
    ensures ChunksBut(ps', mem', n, own', p)
    ensures HasLive(shift, ViewOf(ps'[p], mem'[p]).bits) ==> ChunksOK(ps', mem', n, own')
    ensures Lost(ps, mem, tile, ps', mem', tile, n, addr) && addr / PAGE_SIZE == p
  {
    var v := ViewOf(ps[p], mem[p]);
    assert ChunkPageOK(ps[p].tag, v, own[p]);
    var b' := ViewOf(ps'[p], mem'[p]).bits;
    assert !b'[i];
    BitBlocks(ps, mem, ps', mem', n, tile, p, i, false, shift, addr);
    FreedOthers(ps, mem, ps', mem', n, own, own', p, i);
    if HasLive(shift, b') {
      BitChunks(ps, mem, ps', mem', n, own, own', p, i, false);
    }
  }

  lemma FreedOthers(ps: seq<Page>, mem: seq<seq<bool>>, ps': seq<Page>, mem': seq<seq<bool>>, n: nat,
      own: seq<int>, own': seq<int>, p: nat, i: nat)
    requires |ps| == |ps'| == n + LISTS && |mem| == |mem'| == |own| == |own'| == n && p < n
    requires ChunksOK(ps, mem, n, own) && BitChange(ps, mem, ps', mem', n, p, i, false)
    requires forall q :: 0 <= q < n && q != p ==> own'[q] == own[q]
    ensures ChunksBut(ps', mem', n, own', p)
  {
    forall q | 0 <= q < n && q != p && ps'[q].tag != PageTag
      ensures ChunkPageOK(ps'[q].tag, ViewOf(ps'[q], mem'[q]), own'[q]) {
      assert ps'[q].tag == ps[q].tag;
      assert ChunkPageOK(ps[q].tag, ViewOf(ps[q], mem[q]), own[q]);
    }
  }

  /** Losing a block, then changing nothing else. */
  lemma LostThen(ps: seq<Page>, mem: seq<seq<bool>>, tile: seq<Run>, u: seq<Page>, mu: seq<seq<bool>>, t: seq<Run>,
                 ps': seq<Page>, tile': seq<Run>, n: nat, addr: nat)
    requires |ps| == |u| == |ps'| == n + LISTS && |mem| == |mu| == |tile| == |t| == |tile'| == n
    requires Lost(ps, mem, tile, u, mu, t, n, addr)
    requires BlockAt(ps', mu, n, tile', addr) == 0 && BlocksBut(u, mu, t, ps', mu, tile', n, addr)
    ensures Lost(ps, mem, tile, ps', mu, tile', n, addr)
  {
    forall a: nat | a != addr ensures BlockAt(ps', mu, n, tile', a) == BlockAt(ps, mem, n, tile, a) {
      assert BlockAt(u, mu, n, t, a) == BlockAt(ps, mem, n, tile, a);
    }
  }

  /** The emptied page went back to the page runs. */
  lemma FreedPage(ps: seq<Page>, m: seq<seq<bool>>, u: seq<Page>, ps': seq<Page>, mem: seq<seq<bool>>, n: nat,
      tile: seq<Run>, own: seq<int>, own': seq<int>, p: nat, addr: nat)
    requires PagesOK(u, n, tile, own) && TileOK(tile) && NoLimbo(tile) && ChunksBut(u, mem, n, own, p)
    requires p < n && tile[p].start == p && tile[p].kind == Busy && InRun(tile[p], p)
    requires PagesOK(ps', n, Release(tile, p), own') && KeepsBusy(u, ps', n, Flip(tile, p, Limbo), own, own')
    requires var v := ViewOf(u[p], mem[p]); v.Chunks? && MIN_SHIFT <= v.shift <= MAX_SHIFT && !HasLive(v.shift, v.bits)
    requires addr / PAGE_SIZE == p && |ps| == n + LISTS && |m| == n && Lost(ps, m, tile, u, mem, tile, n, addr)
    ensures ChunksOK(ps', mem, n, own')
    ensures Lost(ps, m, tile, ps', mem, Release(tile, p), n, addr)
  {
    ReleasedChunks(u, ps', mem, n, tile, own, own', p);
    forall a: nat | a / PAGE_SIZE == p && a != addr ensures BlockAt(u, mem, n, tile, a) == 0 {
      EmptyPage(ViewOf(u[p], mem[p]), tile[p], p, a % PAGE_SIZE);
    }
    ReleasedBlocks(u, ps', mem, n, tile, own, own', p, addr);
    LostThen(ps, m, tile, u, mem, tile, ps', Release(tile, p), n, addr);
  }

  /** A block of whole pages went back to the page runs. */
  lemma FreedRun(ps: seq<Page>, ps': seq<Page>, mem: seq<seq<bool>>, n: nat, tile: seq<Run>, own: seq<int>,
      own': seq<int>, p: nat, addr: nat)
    requires PagesOK(ps, n, tile, own) && TileOK(tile) && NoLimbo(tile) && ChunksOK(ps, mem, n, own)
    requires p < n && tile[p].start == p && tile[p].kind == Busy && InRun(tile[p], p) && ps[p].tag == PageTag
    requires PagesOK(ps', n, Release(tile, p), own') && KeepsBusy(ps, ps', n, Flip(tile, p, Limbo), own, own')
    requires addr == p * PAGE_SIZE
    ensures ChunksOK(ps', mem, n, own')
    ensures Lost(ps, mem, tile, ps', mem, Release(tile, p), n, addr)
  {
    ReleasedChunks(ps, ps', mem, n, tile, own, own', p);
    ReleasedBlocks(ps, ps', mem, n, tile, own, own', p, addr);
  }

  /** What a page that is not one of chunks holds at an address. */
  lemma WholeAt(ps: seq<Page>, mem: seq<seq<bool>>, n: nat, tile: seq<Run>, own: seq<int>, p: nat, addr: nat)
    requires PagesOK(ps, n, tile, own) && TileOK(tile) && NoLimbo(tile) && |mem| == n && p < n
    requires ps[p].tag == PageTag && addr / PAGE_SIZE == p && n * PAGE_SIZE <= ADDRESS_SPACE
    ensures addr % PAGE_SIZE != 0 ==> BlockAt(ps, mem, n, tile, addr) == 0
    ensures addr % PAGE_SIZE == 0 && ps[p].slab == PAGE_FREE ==> BlockAt(ps, mem, n, tile, addr) == 0
    ensures addr % PAGE_SIZE == 0 && ps[p].slab == PAGE_BUSY ==> BlockAt(ps, mem, n, tile, addr) == 0
    ensures ps[p].slab != PAGE_FREE && ps[p].slab != PAGE_BUSY && !(tile[p].kind == Free && tile[p].start == p) ==>
      && ps[p].slab >= PAGE_START && tile[p] == Run(p, ps[p].slab - PAGE_START, Busy)
  {
    Agree(tile, p, p);
    assert PageOK(ps[p], n, tile[p], own[p], p);
  }

  // ---------- the pool before its first request ----------

  /** One free run of all n pages; every list but the free one is empty. */
  function FirstPage(n: nat, i: nat): Page {
    if i == 0 then Page(n, [], n, n, PageTag)
    else if i < n then CLEARED
    else if i == n then Page(0, [], 0, 0, PageTag)
    else Page(0, [], i, i, PageTag)
  }

  lemma FirstPool(ps: seq<Page>, mem: seq<seq<bool>>, n: nat)
    requires n > 0 && |ps| == n + LISTS && |mem| == n
    requires forall i :: 0 <= i < n + LISTS ==> ps[i] == FirstPage(n, i)
    ensures var tile := seq(n, p => Run(0, n, Free));
      var ls: seq<seq<nat>> := [[0]] + seq(LISTS - 1, j => []);
      var own := [0] + seq(n - 1, p => -1);
      && PoolOK(ps, n, tile, ls, own) && NoLimbo(tile) && Coalesced(tile) && Reserved(tile) == {}
      && ChunksOK(ps, mem, n, own)
      && forall a: nat :: BlockAt(ps, mem, n, tile, a) == 0
  {
    var tile := seq(n, p => Run(0, n, Free));
    var ls: seq<seq<nat>> := [[0]] + seq(LISTS - 1, j => []);
    var own := [0] + seq(n - 1, p => -1);
    forall p | 0 <= p < n ensures PageOK(ps[p], n, tile[p], own[p], p) && ps[p].tag == PageTag {
      assert ps[p] == FirstPage(n, p);
    }
    forall j | 0 <= j < LISTS ensures ListOK(ps, n, j, ls[j]) {
      assert ps[n + j] == FirstPage(n, n + j);
    }
  }
}
