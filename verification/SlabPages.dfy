/** The page-run layer of the allocator: what one page descriptor says about the run
    it belongs to, and how each step of an allocation or a release keeps that. */
module SlabPages {
  import opened SlabLists
  import opened SlabTiles

  const PAGE_FREE: nat := 0
  const PAGE_BUSY: nat := 0xffff_ffff_ffff_ffff
  const PAGE_START: nat := 0x8000_0000_0000_0000

  /** Descriptor p tells the truth about the run r that holds it. */
  ghost predicate PageOK(d: Page, n: nat, r: Run, own: int, p: nat) {
    match r.kind
    case Free =>
      && d.tag == PageTag
      && (if p == r.start then d.slab == r.len && own == 0
          else d.slab == PAGE_FREE && d.next == NULL && own == -1)
      && (r.start < p == End(r) - 1 && p + 1 < n ==> d.prev == r.start)
    case Busy =>
      if p == r.start then
        && own != 0
        && (own == -1 ==> d.next == NULL)
        && (if d.tag == PageTag then d.slab == PAGE_START + r.len && own == -1 else r.len == 1)
      else
        d.slab == PAGE_BUSY && d.next == NULL && d.tag == PageTag && own == -1
    case Limbo =>
      && own == -1
      && (p != r.start ==> d.slab == PAGE_FREE && d.next == NULL && d.tag == PageTag)
  }

  ghost predicate PagesOK(ps: seq<Page>, n: nat, tile: seq<Run>, own: seq<int>) {
    && |ps| == n + LISTS && |tile| == n && |own| == n
    && forall p :: 0 <= p < n ==> PageOK(ps[p], n, tile[p], own[p], p)
  }

  /** The whole invariant of the page layer, between or inside operations. */
  ghost predicate PoolOK(ps: seq<Page>, n: nat, tile: seq<Run>, ls: seq<seq<nat>>, own: seq<int>) {
    && ListsOK(ps, n, ls, own)
    && TileOK(tile)
    && PagesOK(ps, n, tile, own)
  }

  // ---------- allocation ----------

  /** A free run gives its pages before y: the rest takes its place in
      the free list. */
  function CutFree(ps: seq<Page>, h: nat, y: nat): (r: seq<Page>)
    requires h < |ps| && h < y < h + ps[h].slab <= |ps|
    requires 0 <= ps[h].prev < |ps| && 0 <= ps[h].next < |ps|
  {
    var t := h + ps[h].slab - 1;
    var ps1 := ps[t := ps[t].(prev := y, tag := PageTag)];
    var ps2 := ps1[y := ps1[y].(slab := ps[h].slab - (y - h), bits := [],
      next := ps[h].next, prev := ps[h].prev, tag := ps[h].tag)];
    var ps3 := ps2[ps[h].prev := ps2[ps[h].prev].(next := y)];
    ps3[ps[h].next := ps3[ps[h].next].(prev := y, tag := PageTag)]
  }

  /** The descriptor that is in the way of the cut: h is on the free list at i. */
  ghost predicate FreeAt(ps: seq<Page>, n: nat, tile: seq<Run>, ls: seq<seq<nat>>, own: seq<int>, h: nat, i: nat) {
    && PoolOK(ps, n, tile, ls, own)
    && h < n && i < |ls[0]| && ls[0][i] == h
  }

  lemma FreeAtFacts(ps: seq<Page>, n: nat, tile: seq<Run>, ls: seq<seq<nat>>, own: seq<int>, h: nat, i: nat)
    requires FreeAt(ps, n, tile, ls, own, h, i)
    ensures own[h] == 0 && tile[h].start == h && tile[h].kind == Free && tile[h].len == ps[h].slab > 0
    ensures h + ps[h].slab <= n
    ensures ListOK(ps, n, 0, ls[0])
    ensures ps[h].next == After(n, ls[0], i) && ps[h].prev == Before(n, ls[0], i) && ps[h].tag == PageTag
    ensures ps[h].next != h && ps[h].prev != h
    ensures 0 <= ps[h].next <= n && 0 <= ps[h].prev <= n
  {
    assert h in ls[0] && own[h] == 0;
    assert PageOK(ps[h], n, tile[h], own[h], h);
    assert ListOK(ps, n, 0, ls[0]);
    Agree(tile, h, h);
  }

  /** Another member of the free list heads another run. */
  lemma FreeNeighbour(ps: seq<Page>, n: nat, tile: seq<Run>, ls: seq<seq<nat>>, own: seq<int>, h: nat, i: nat, g: nat)
    requires FreeAt(ps, n, tile, ls, own, h, i) && g in ls[0] && g != h
    ensures g < n && own[g] == 0 && !InRun(tile[h], g)
  {
    FreeAtFacts(ps, n, tile, ls, own, h, i);
    var k := IndexOf(ls[0], g);
    FreeAtFacts(ps, n, tile, ls, own, g, k);
    Agree(tile, h, g);
  }

  lemma FreeLinks(ps: seq<Page>, n: nat, tile: seq<Run>, ls: seq<seq<nat>>, own: seq<int>, h: nat, i: nat)
    requires FreeAt(ps, n, tile, ls, own, h, i)
    ensures !InRun(tile[h], ps[h].next) && !InRun(tile[h], ps[h].prev)
  {
    FreeAtFacts(ps, n, tile, ls, own, h, i);
    if ps[h].next < n {
      assert ps[h].next == ls[0][i + 1] && ls[0][i + 1] in ls[0];
      FreeNeighbour(ps, n, tile, ls, own, h, i, ps[h].next);
    }
    if ps[h].prev < n {
      assert ps[h].prev == ls[0][i - 1] && ls[0][i - 1] in ls[0];
      FreeNeighbour(ps, n, tile, ls, own, h, i, ps[h].prev);
    }
  }

  /** h heads a free run h..t that can be cut at y: its links leave the run. */
  ghost predicate Cuttable(ps: seq<Page>, n: nat, h: nat, y: nat, t: nat) {
    && |ps| == n + LISTS && h < y <= t < n && ps[h].slab == t + 1 - h
    && 0 <= ps[h].prev <= n && 0 <= ps[h].next <= n && ps[h].tag == PageTag
    && (ps[h].prev < h || ps[h].prev > t)
    && (ps[h].next < h || ps[h].next > t)
  }

  lemma CuttableOK(ps: seq<Page>, n: nat, tile: seq<Run>, ls: seq<seq<nat>>, own: seq<int>, h: nat, i: nat,
      y: nat, t: nat)
    requires FreeAt(ps, n, tile, ls, own, h, i) && h < y <= t && t + 1 == h + ps[h].slab
    ensures Cuttable(ps, n, h, y, t)
  {
    FreeAtFacts(ps, n, tile, ls, own, h, i);
    FreeLinks(ps, n, tile, ls, own, h, i);
  }

  /** Inside a free run, only its head is on a list. */
  lemma FreeInterior(ps: seq<Page>, n: nat, tile: seq<Run>, ls: seq<seq<nat>>, own: seq<int>, h: nat, i: nat, q: nat)
    requires FreeAt(ps, n, tile, ls, own, h, i) && h < q < h + ps[h].slab
    ensures q < n && own[q] == -1 && q !in ls[0] && tile[q] == tile[h]
  {
    FreeAtFacts(ps, n, tile, ls, own, h, i);
    Agree(tile, h, q);
    assert PageOK(ps[q], n, tile[q], own[q], q);
  }

  /** Links of a list point back at each other. */
  lemma BackLink(ps: seq<Page>, n: nat, j: nat, l: seq<nat>, i: nat, q: nat)
    requires j < LISTS && |ps| == n + LISTS && ListOK(ps, n, j, l) && i < |l| && q in l && q != l[i]
    ensures q < n && ps[l[i]].prev == Before(n + j, l, i) && ps[l[i]].next == After(n + j, l, i)
    ensures ps[q].next == l[i] <==> q == ps[l[i]].prev
    ensures ps[q].prev == l[i] <==> q == ps[l[i]].next
    ensures ps[q].tag == ListTag(j)
  {
    var k := IndexOf(l, q);
    assert ps[l[k]].next == After(n + j, l, k) && ps[l[k]].prev == Before(n + j, l, k);
  }

  /** The writes of a cut at descriptor q. */
  ghost predicate CutWrite(ps: seq<Page>, r: seq<Page>, h: nat, y: nat, t: nat, q: nat)
    requires h < |ps| && q < |ps| && y <= t < |ps| && |r| == |ps|
  {
    r[q] == if q == y then Page(t + 1 - y, [], ps[h].next, ps[h].prev, PageTag)
            else if q == t then ps[t].(prev := y, tag := PageTag)
            else ps[q].(next := if q == ps[h].prev then y else ps[q].next,
                        prev := if q == ps[h].next then y else ps[q].prev,
                        tag := if q == ps[h].next then PageTag else ps[q].tag)
  }

  ghost predicate IsCut(ps: seq<Page>, r: seq<Page>, n: nat, h: nat, y: nat, t: nat)
    requires |ps| == |r| == n + LISTS && h < n && y <= t < n
  {
    forall q :: 0 <= q < n + LISTS ==> CutWrite(ps, r, h, y, t, q)
  }

  lemma CutReplaced(ps: seq<Page>, mid: seq<Page>, r: seq<Page>, n: nat, l: seq<nat>, i: nat, y: nat, t: nat)
    requires |ps| == |mid| == |r| == n + LISTS && ListOK(ps, n, 0, l) && i < |l|
    requires y <= t < n && y !in l && t !in l
    requires IsCut(ps, r, n, l[i], y, t)
    requires forall q :: 0 <= q < n + LISTS ==> mid[q] == if q == y || q == t then r[q] else ps[q]
    ensures Replaced(mid, r, n, 0, l, l[i], y)
  {
    var h := l[i];
    assert CutWrite(ps, r, h, y, t, n) && CutWrite(ps, r, h, y, t, y);
    forall q | 0 <= q < n && q in l && q != h
      ensures r[q].next == (if mid[q].next == h then y else mid[q].next)
      ensures r[q].prev == (if mid[q].prev == h then y else mid[q].prev) && r[q].tag == mid[q].tag
    {
      assert CutWrite(ps, r, h, y, t, q);
      BackLink(ps, n, 0, l, i, q);
    }
    CutHead(ps, n, l, i);
  }

  lemma CutHead(ps: seq<Page>, n: nat, l: seq<nat>, i: nat)
    requires |ps| == n + LISTS && ListOK(ps, n, 0, l) && i < |l|
    ensures ps[l[i]].prev == n <==> ps[n].next == l[i]
  {
    assert ps[l[i]].prev == Before(n, l, i);
  }

  lemma CutOnly(ps: seq<Page>, mid: seq<Page>, r: seq<Page>, n: nat, l: seq<nat>, i: nat, y: nat, t: nat)
    requires |ps| == |mid| == |r| == n + LISTS && ListOK(ps, n, 0, l) && i < |l|
    requires y <= t < n && y !in l && t !in l
    requires IsCut(ps, r, n, l[i], y, t)
    requires forall q :: 0 <= q < n + LISTS ==> mid[q] == if q == y || q == t then r[q] else ps[q]
    ensures OnlyList(mid, r, n, 0, l, [y])
  {
    var h := l[i];
    assert ps[h].next == After(n, l, i) && ps[h].prev == Before(n, l, i);
    assert (ps[h].next == n || ps[h].next in l) && (ps[h].prev == n || ps[h].prev in l);
    forall q | 0 <= q < n + LISTS && q != n && q !in l && q !in [y] ensures r[q] == mid[q] {
      assert CutWrite(ps, r, h, y, t, q);
    }
    forall q | n <= q < n + LISTS && q != n + 0 ensures r[q] == mid[q] {
      assert q !in l;
    }
  }

  lemma CutFreeAt(ps: seq<Page>, n: nat, h: nat, y: nat, t: nat, q: nat)
    requires Cuttable(ps, n, h, y, t) && q < n + LISTS
    ensures |CutFree(ps, h, y)| == |ps|
    ensures CutWrite(ps, CutFree(ps, h, y), h, y, t, q)
  {}

  lemma CutWrites(ps: seq<Page>, n: nat, h: nat, y: nat, t: nat)
    requires Cuttable(ps, n, h, y, t)
    ensures |CutFree(ps, h, y)| == |ps| && IsCut(ps, CutFree(ps, h, y), n, h, y, t)
  {
    CutFreeAt(ps, n, h, y, t, y);
    forall q | 0 <= q < n + LISTS ensures CutWrite(ps, CutFree(ps, h, y), h, y, t, q) {
      CutFreeAt(ps, n, h, y, t, q);
    }
  }

  lemma CutListsOK(ps: seq<Page>, r: seq<Page>, n: nat, ls: seq<seq<nat>>, own: seq<int>, h: nat, i: nat, y: nat,
      t: nat)
    requires ListsOK(ps, n, ls, own) && i < |ls[0]| && ls[0][i] == h && h < n && |r| == |ps|
    requires y <= t < n && own[y] == -1 && own[t] == -1
    requires IsCut(ps, r, n, h, y, t)
    ensures ListsOK(r, n, ls[0 := ReplaceAt(ls[0], i, y)], own[h := -1][y := 0])
  {
    var mid := CutMiddle(ps, r, n, ls, own, y, t);
    var l := ls[0];
    assert ListOK(ps, n, 0, l) && ListOK(mid, n, 0, l);
    CutReplaced(ps, mid, r, n, l, i, y, t);
    CutOnly(ps, mid, r, n, l, i, y, t);
    ListsReplace(mid, r, n, ls, own, 0, i, y);
  }

  /** First the two descriptors that are on no list are written. */
  lemma CutMiddle(ps: seq<Page>, r: seq<Page>, n: nat, ls: seq<seq<nat>>, own: seq<int>, y: nat, t: nat)
      returns (mid: seq<Page>)
    requires ListsOK(ps, n, ls, own) && |r| == |ps| && y <= t < n && own[y] == -1 && own[t] == -1
    ensures |mid| == n + LISTS && ListsOK(mid, n, ls, own)
    ensures forall q :: 0 <= q < n + LISTS ==> mid[q] == if q == y || q == t then r[q] else ps[q]
  {
    mid := seq(n + LISTS, q requires 0 <= q < n + LISTS => if q == y || q == t then r[q] else ps[q]);
    ListsOffFrame(ps, mid, n, ls, own);
  }

  /** After a cut, page by page. */
  lemma CutPage(ps: seq<Page>, r: seq<Page>, n: nat, tile: seq<Run>, own: seq<int>, h: nat, y: nat, t: nat, p: nat)
    requires Cuttable(ps, n, h, y, t) && |own| == n
    requires |tile| == n && TileOK(tile) && tile[h] == Run(h, t + 1 - h, Free)
    requires p < n && PageOK(ps[p], n, tile[p], own[p], p)
    requires own[p] != 0 ==> ps[h].next != p && ps[h].prev != p
    requires |r| == |ps| && CutWrite(ps, r, h, y, t, p)
    ensures PageOK(r[p], n, Split(tile, h, y, Limbo)[p], own[h := -1][y := 0][p], p)
  {
    SplitAt(tile, h, y, Limbo, p);
    Agree(tile, h, p);
    if InRun(tile[h], p) {
      CutInside(ps, r, n, own, h, y, t, p);
    }
  }

  lemma CutUntouched(ps: seq<Page>, n: nat, ls: seq<seq<nat>>, own: seq<int>, h: nat, i: nat, p: nat)
    requires ListsOK(ps, n, ls, own) && h < n && i < |ls[0]| && ls[0][i] == h && p < n && own[p] != 0
    ensures ps[h].next != p && ps[h].prev != p
  {
    assert ListOK(ps, n, 0, ls[0]);
    assert ps[h].next == After(n, ls[0], i) && ps[h].prev == Before(n, ls[0], i);
    assert p !in ls[0];
  }

  lemma CutInside(ps: seq<Page>, r: seq<Page>, n: nat, own: seq<int>, h: nat, y: nat, t: nat, p: nat)
    requires Cuttable(ps, n, h, y, t) && |own| == n && |r| == |ps| && h <= p <= t
    requires PageOK(ps[p], n, Run(h, t + 1 - h, Free), own[p], p)
    requires CutWrite(ps, r, h, y, t, p)
    ensures PageOK(r[p], n, if p < y then Run(h, y - h, Limbo) else Run(y, t + 1 - y, Free), own[h := -1][y := 0][p], p)
  {
  }

  lemma CutAllPages(ps: seq<Page>, r: seq<Page>, n: nat, tile: seq<Run>, ls: seq<seq<nat>>, own: seq<int>,
                    h: nat, i: nat, y: nat, t: nat)
    requires FreeAt(ps, n, tile, ls, own, h, i) && Cuttable(ps, n, h, y, t) && |r| == |ps|
    requires tile[h] == Run(h, t + 1 - h, Free)
    requires IsCut(ps, r, n, h, y, t)
    ensures PagesOK(r, n, Split(tile, h, y, Limbo), own[h := -1][y := 0])
  {
    var tile', own' := Split(tile, h, y, Limbo), own[h := -1][y := 0];
    forall p | 0 <= p < n ensures PageOK(r[p], n, tile'[p], own'[p], p) {
      if own[p] != 0 {
        CutUntouched(ps, n, ls, own, h, i, p);
      }
      CutPage(ps, r, n, tile, own, h, y, t, p);
    }
  }

  /** A cut keeps the invariant; the pages taken are in limbo. */
  lemma CutPool(ps: seq<Page>, n: nat, tile: seq<Run>, ls: seq<seq<nat>>, own: seq<int>, h: nat, i: nat, y: nat, t: nat)
    requires FreeAt(ps, n, tile, ls, own, h, i) && h < y <= t && t + 1 == h + ps[h].slab
    ensures Cuttable(ps, n, h, y, t) && tile[h] == Run(h, t + 1 - h, Free)
    ensures |CutFree(ps, h, y)| == |ps| && IsCut(ps, CutFree(ps, h, y), n, h, y, t)
    ensures PoolOK(CutFree(ps, h, y), n, Split(tile, h, y, Limbo), ls[0 := ReplaceAt(ls[0], i, y)],
                   own[h := -1][y := 0])
  {
    CuttableOK(ps, n, tile, ls, own, h, i, y, t);
    FreeAtFacts(ps, n, tile, ls, own, h, i);
    FreeInterior(ps, n, tile, ls, own, h, i, y);
    FreeInterior(ps, n, tile, ls, own, h, i, t);
    CutWrites(ps, n, h, y, t);
    var r := CutFree(ps, h, y);
    CutListsOK(ps, r, n, ls, own, h, i, y, t);
    SplitTiles(tile, h, y, Limbo);
    CutAllPages(ps, r, n, tile, ls, own, h, i, y, t);
  }

  // ---------- one run changes ----------

  /** The pages of the run of h are rewritten; none of them is on a list. */
  lemma RunRewrite(ps: seq<Page>, r: seq<Page>, n: nat, tile: seq<Run>, ls: seq<seq<nat>>, own: seq<int>, h: nat,
      kind: Kind)
    requires PoolOK(ps, n, tile, ls, own) && |r| == |ps| && h < n && tile[h].start == h
    requires forall p :: 0 <= p < n + LISTS && !InRun(tile[h], p) ==> r[p] == ps[p]
    requires forall p :: 0 <= p < n && InRun(tile[h], p) ==>
      own[p] == -1 && PageOK(r[p], n, tile[h].(kind := kind), own[p], p)
    ensures PoolOK(r, n, Flip(tile, h, kind), ls, own)
  {
    FlipTiles(tile, h, kind);
    Agree(tile, h, h);
    ListsOffFrame(ps, r, n, ls, own);
    forall p | 0 <= p < n ensures PageOK(r[p], n, Flip(tile, h, kind)[p], own[p], p) {
      assert PageOK(ps[p], n, tile[p], own[p], p);
    }
  }

  /** The head of a run leaves its list: the run is in limbo. */
  lemma UnlinkPool(ps: seq<Page>, n: nat, tile: seq<Run>, ls: seq<seq<nat>>, own: seq<int>, h: nat, i: nat)
    requires PoolOK(ps, n, tile, ls, own) && h < n && own[h] >= 0 && i < |ls[own[h]]| && ls[own[h]][i] == h
    ensures tile[h].start == h && (tile[h].kind == Free <==> own[h] == 0) && (own[h] > 0 ==> tile[h].len == 1)
    ensures 0 <= ps[h].prev < |ps| && 0 <= ps[h].next < |ps|
    ensures Unlink(ps, h)[h] == ps[h]
    ensures PoolOK(Unlink(ps, h), n, Flip(tile, h, Limbo), ls[own[h] := RemoveAt(ls[own[h]], i)], own[h := -1])
  {
    assert PageOK(ps[h], n, tile[h], own[h], h);
    Agree(tile, h, h);
    ListsUnlink(ps, n, ls, own, h, i);
    FlipTiles(tile, h, Limbo);
    UnlinkPages(ps, Unlink(ps, h), n, tile, ls, own, h);
  }

  lemma UnlinkPages(ps: seq<Page>, r: seq<Page>, n: nat, tile: seq<Run>, ls: seq<seq<nat>>, own: seq<int>, h: nat)
    requires OwnOK(n, ls, own) && TileOK(tile) && PagesOK(ps, n, tile, own) && h < n && own[h] >= 0 && |r| == |ps|
    requires tile[h].start == h && (tile[h].kind == Free <==> own[h] == 0) && (own[h] > 0 ==> tile[h].len == 1)
    requires OnlyList(ps, r, n, own[h], ls[own[h]], []) && SameWords(ps, r, n)
    ensures PagesOK(r, n, Flip(tile, h, Limbo), own[h := -1])
  {
    forall p | 0 <= p < n ensures PageOK(r[p], n, Flip(tile, h, Limbo)[p], own[h := -1][p], p) {
      assert PageOK(ps[p], n, tile[p], own[p], p);
      Agree(tile, h, p);
      if own[p] == -1 {
        assert p !in ls[own[h]] && r[p] == ps[p];
      }
    }
  }

  /** The head of a run goes on a list. */
  lemma PushPool(ps: seq<Page>, r: seq<Page>, n: nat, tile: seq<Run>, ls: seq<seq<nat>>, own: seq<int>, j: nat,
      h: nat, kind: Kind)
    requires PoolOK(ps, n, tile, ls, own) && |r| == |ps| && h < n && own[h] == -1 && j < LISTS
    requires tile[h].start == h
    requires PushedFront(ps, r, n, j, ls[j], h) && OnlyList(ps, r, n, j, ls[j], [h])
    requires forall q :: 0 <= q < n && q != h ==>
      r[q].slab == ps[q].slab && r[q].bits == ps[q].bits && r[q].tag == ps[q].tag
    requires PageOK(r[h], n, tile[h].(kind := kind), j, h)
    requires forall q :: h < q < n && InRun(tile[h], q) ==>
      PageOK(ps[q], n, tile[h].(kind := kind), -1, q) && own[q] == -1
    ensures PoolOK(r, n, Flip(tile, h, kind), ls[j := [h] + ls[j]], own[h := j])
  {
    assert ListOK(ps, n, j, ls[j]);
    ListsPush(ps, r, n, ls, own, j, h);
    FlipTiles(tile, h, kind);
    PushPages(ps, r, n, tile, ls, own, j, h, kind);
  }

  lemma PushPages(ps: seq<Page>, r: seq<Page>, n: nat, tile: seq<Run>, ls: seq<seq<nat>>, own: seq<int>, j: nat,
      h: nat, kind: Kind)
    requires OwnOK(n, ls, own) && TileOK(tile) && PagesOK(ps, n, tile, own) && h < n && own[h] == -1 &&
      |r| == |ps| && j < LISTS
    requires tile[h].start == h
    requires OnlyList(ps, r, n, j, ls[j], [h])
    requires forall q :: 0 <= q < n && q != h ==>
      r[q].slab == ps[q].slab && r[q].bits == ps[q].bits && r[q].tag == ps[q].tag
    requires PageOK(r[h], n, tile[h].(kind := kind), j, h)
    requires forall q :: h < q < n && InRun(tile[h], q) ==>
      PageOK(ps[q], n, tile[h].(kind := kind), -1, q) && own[q] == -1
    ensures PagesOK(r, n, Flip(tile, h, kind), own[h := j])
  {
    forall p | 0 <= p < n ensures PageOK(r[p], n, Flip(tile, h, kind)[p], own[h := j][p], p) {
      assert PageOK(ps[p], n, tile[p], own[p], p);
      Agree(tile, h, p);
      if own[p] == -1 && p != h {
        assert p !in ls[j] && r[p] == ps[p];
      }
    }
  }

  /** Two limbo runs that touch become one; the second head is now an interior page. */
  lemma MergePool(ps: seq<Page>, r: seq<Page>, n: nat, tile: seq<Run>, ls: seq<seq<nat>>, own: seq<int>, a: nat,
      b: nat, m: Run)
    requires PoolOK(ps, n, tile, ls, own) && |r| == |ps| && a < b < n
    requires tile[a].start == a && tile[a].kind == Limbo && End(tile[a]) == b
    requires tile[b].start == b && tile[b].kind == Limbo
    requires m == Run(a, tile[a].len + tile[b].len, Limbo)
    requires forall p :: 0 <= p < n + LISTS && p != a && p != b ==> r[p] == ps[p]
    requires r[b] == Page(PAGE_FREE, r[b].bits, NULL, NULL, PageTag)
    ensures PoolOK(r, n, SetRun(tile, m), ls, own)
  {
    RunBoundary(tile, b);
    Agree(tile, b, b);
    SetRunTiles(tile, m);
    assert PageOK(ps[a], n, tile[a], own[a], a) && PageOK(ps[b], n, tile[b], own[b], b);
    ListsOffFrame(ps, r, n, ls, own);
    forall p | 0 <= p < n ensures PageOK(r[p], n, SetRun(tile, m)[p], own[p], p) {
      assert PageOK(ps[p], n, tile[p], own[p], p);
      MergePage(ps[p], r[p], n, tile, own[p], a, b, m, p);
    }
  }

  lemma MergePage(d: Page, d': Page, n: nat, tile: seq<Run>, own: int, a: nat, b: nat, m: Run, p: nat)
    requires TileOK(tile) && |tile| == n && a < b < n && p < n && PageOK(d, n, tile[p], own, p)
    requires tile[a].start == a && tile[a].kind == Limbo && End(tile[a]) == b
    requires tile[b].start == b && tile[b].kind == Limbo && m == Run(a, tile[a].len + tile[b].len, Limbo)
    requires (p != a && p != b ==> d' == d) && (p == b ==> d' == Page(PAGE_FREE, d'.bits, NULL, NULL, PageTag))
    ensures PageOK(d', n, SetRun(tile, m)[p], own, p)
  {
    Agree(tile, a, p);
    Agree(tile, b, p);
  }

  /** Busy pages, and the sentinels of the size classes, are as they were. */
  ghost predicate BusyFrame(ps: seq<Page>, r: seq<Page>, n: nat, tile: seq<Run>) {
    && |ps| == |r| == n + LISTS && |tile| == n
    && (forall p :: 0 <= p < n && tile[p].kind == Busy ==> r[p] == ps[p])
    && (forall p :: n < p < n + LISTS ==> r[p] == ps[p])
  }

  /** Unlinking a free run leaves every busy page alone. */
  lemma UnlinkFrameFree(ps: seq<Page>, n: nat, tile: seq<Run>, ls: seq<seq<nat>>, own: seq<int>, h: nat, i: nat)
    requires FreeAt(ps, n, tile, ls, own, h, i)
    ensures 0 <= ps[h].prev < |ps| && 0 <= ps[h].next < |ps|
    ensures BusyFrame(ps, Unlink(ps, h), n, tile) && Unlink(ps, h)[h] == ps[h]
  {
    FreeAtFacts(ps, n, tile, ls, own, h, i);
    ListUnlinkOnly(ps, n, ls, own, h, i);
    forall p | 0 <= p < n && tile[p].kind == Busy ensures Unlink(ps, h)[p] == ps[p] {
      assert PageOK(ps[p], n, tile[p], own[p], p);
      assert p !in ls[0];
    }
  }

  lemma ListUnlinkOnly(ps: seq<Page>, n: nat, ls: seq<seq<nat>>, own: seq<int>, h: nat, i: nat)
    requires ListsOK(ps, n, ls, own) && h < n && i < |ls[0]| && ls[0][i] == h
    ensures 0 <= ps[h].prev < |ps| && 0 <= ps[h].next < |ps|
    ensures OnlyList(ps, Unlink(ps, h), n, 0, ls[0], []) && Unlink(ps, h)[h] == ps[h]
  {
    assert h in ls[0];
    ListsUnlink(ps, n, ls, own, h, i);
  }

  /** A page that has just been written as the busy run of k pages at h. */
  ghost predicate BusyRun(r: seq<Page>, h: nat, k: nat) {
    && 0 < k && h + k <= |r|
    && r[h] == Page(PAGE_START + k, [], NULL, NULL, PageTag)
    && forall p :: h < p < h + k ==> r[p] == Page(PAGE_BUSY, [], NULL, NULL, PageTag)
  }

  lemma LimboToBusy(ps: seq<Page>, r: seq<Page>, n: nat, tile: seq<Run>, ls: seq<seq<nat>>, own: seq<int>,
      h: nat, k: nat)
    requires PoolOK(ps, n, tile, ls, own) && |r| == |ps| && h < n && tile[h] == Run(h, k, Limbo)
    requires BusyRun(r, h, k) && forall p :: 0 <= p < |ps| && !InRun(tile[h], p) ==> r[p] == ps[p]
    ensures PoolOK(r, n, Flip(tile, h, Busy), ls, own)
  {
    forall p | 0 <= p < n && InRun(tile[h], p)
      ensures own[p] == -1 && PageOK(r[p], n, tile[h].(kind := Busy), own[p], p)
    {
      Agree(tile, h, p);
      assert PageOK(ps[p], n, tile[p], own[p], p);
    }
    RunRewrite(ps, r, n, tile, ls, own, h, Busy);
  }

  /** Walking the free list finds every free run. */
  lemma NoFit(ps: seq<Page>, n: nat, tile: seq<Run>, ls: seq<seq<nat>>, own: seq<int>, k: nat, p: nat)
    requires PoolOK(ps, n, tile, ls, own) && p < n && tile[p].kind == Free
    requires forall m :: 0 <= m < |ls[0]| ==> ls[0][m] < n && ps[ls[0][m]].slab < k
    ensures tile[p].len < k
  {
    var h := tile[p].start;
    RunBoundary(tile, p);
    Agree(tile, p, h);
    assert PageOK(ps[h], n, tile[h], own[h], h);
    assert h in ls[0];
    var m := IndexOf(ls[0], h);
  }

  lemma NoFitAtAll(ps: seq<Page>, n: nat, tile: seq<Run>, ls: seq<seq<nat>>, own: seq<int>, k: nat)
    requires PoolOK(ps, n, tile, ls, own)
    requires forall m :: 0 <= m < |ls[0]| ==> ls[0][m] < n && ps[ls[0][m]].slab < k
    ensures forall p :: 0 <= p < n && tile[p].kind == Free ==> tile[p].len < k
  {
    forall p | 0 <= p < n && tile[p].kind == Free ensures tile[p].len < k {
      NoFit(ps, n, tile, ls, own, k, p);
    }
  }

  lemma FreeListOK(ps: seq<Page>, n: nat, tile: seq<Run>, ls: seq<seq<nat>>, own: seq<int>)
    requires PoolOK(ps, n, tile, ls, own)
    ensures |ls| == LISTS && ListOK(ps, n, 0, ls[0])
  {}

  /** What the chunk layer relies on: an operation on page runs leaves the words of busy
      pages, and the lists they are on, as they were. */
  ghost predicate KeepsBusy(ps: seq<Page>, r: seq<Page>, n: nat, tile: seq<Run>, own: seq<int>, own': seq<int>) {
    && |ps| == |r| == n + LISTS && |tile| == |own| == |own'| == n
    && forall p :: 0 <= p < n && tile[p].kind == Busy ==>
         && r[p].slab == ps[p].slab && r[p].bits == ps[p].bits && r[p].tag == ps[p].tag
         && own'[p] == own[p]
  }

  lemma CutKeepsAt(ps: seq<Page>, r: seq<Page>, n: nat, tile: seq<Run>, own: seq<int>, h: nat, y: nat, t: nat, p: nat)
    requires Cuttable(ps, n, h, y, t) && |own| == n && |r| == |ps|
    requires |tile| == n && TileOK(tile) && tile[h] == Run(h, t + 1 - h, Free)
    requires p < n && tile[p].kind == Busy
    requires ps[h].next != p && ps[h].prev != p
    requires CutWrite(ps, r, h, y, t, p)
    ensures r[p] == ps[p] && own[h := -1][y := 0][p] == own[p]
  {
    Agree(tile, h, p);
  }

  lemma CutKeeps(ps: seq<Page>, r: seq<Page>, n: nat, tile: seq<Run>, ls: seq<seq<nat>>, own: seq<int>, h: nat,
      i: nat, y: nat, t: nat)
    requires FreeAt(ps, n, tile, ls, own, h, i) && Cuttable(ps, n, h, y, t) && tile[h] == Run(h, t + 1 - h, Free)
    requires |r| == |ps| && IsCut(ps, r, n, h, y, t)
    ensures KeepsBusy(ps, r, n, tile, own, own[h := -1][y := 0])
  {
    forall p | 0 <= p < n && tile[p].kind == Busy ensures r[p] == ps[p] && own[h := -1][y := 0][p] == own[p] {
      assert PageOK(ps[p], n, tile[p], own[p], p);
      CutUntouched(ps, n, ls, own, h, i, p);
      CutKeepsAt(ps, r, n, tile, own, h, y, t, p);
    }
  }

  lemma UnlinkKeeps(ps: seq<Page>, n: nat, tile: seq<Run>, ls: seq<seq<nat>>, own: seq<int>, h: nat, i: nat)
    requires FreeAt(ps, n, tile, ls, own, h, i)
    ensures 0 <= ps[h].prev < |ps| && 0 <= ps[h].next < |ps|
    ensures KeepsBusy(ps, Unlink(ps, h), n, tile, own, own[h := -1])
  {
    UnlinkFrameFree(ps, n, tile, ls, own, h, i);
    FreeAtFacts(ps, n, tile, ls, own, h, i);
  }

  // ---------- release ----------

  /** The words of a limbo run are free to change, up to the links of its interior. */
  lemma LimboRewrite(ps: seq<Page>, r: seq<Page>, n: nat, tile: seq<Run>, ls: seq<seq<nat>>, own: seq<int>,
      h: nat, q: nat)
    requires PoolOK(ps, n, tile, ls, own) && |r| == |ps| && h < n && tile[h].start == h && tile[h].kind == Limbo
    requires q < n && InRun(tile[h], q)
    requires forall p :: 0 <= p < n + LISTS && p != q ==> r[p] == ps[p]
    requires q != h ==> r[q].slab == ps[q].slab && r[q].next == ps[q].next && r[q].tag == ps[q].tag
    ensures PoolOK(r, n, tile, ls, own) && own[h] == -1 && own[q] == -1
  {
    Agree(tile, h, h);
    Agree(tile, h, q);
    assert PageOK(ps[h], n, tile[h], own[h], h) && PageOK(ps[q], n, tile[q], own[q], q);
    ListsOffFrame(ps, r, n, ls, own);
    forall p | 0 <= p < n ensures PageOK(r[p], n, tile[p], own[p], p) {
      assert PageOK(ps[p], n, tile[p], own[p], p);
    }
  }

  /** A busy run on no list, its interior cleared, is in limbo. */
  lemma BusyToLimbo(ps: seq<Page>, r: seq<Page>, n: nat, tile: seq<Run>, ls: seq<seq<nat>>, own: seq<int>,
      h: nat, k: nat)
    requires PoolOK(ps, n, tile, ls, own) && |r| == |ps| && h < n && tile[h] == Run(h, k, Busy) && own[h] == -1
    requires forall p :: 0 <= p < |ps| && !InRun(tile[h], p) ==> r[p] == ps[p]
    requires forall p :: h < p < h + k && p < n ==> r[p] == Page(PAGE_FREE, [], NULL, NULL, PageTag)
    ensures PoolOK(r, n, Flip(tile, h, Limbo), ls, own)
  {
    forall p | 0 <= p < n && InRun(tile[h], p)
      ensures own[p] == -1 && PageOK(r[p], n, tile[h].(kind := Limbo), own[p], p)
    {
      Agree(tile, h, p);
      assert PageOK(ps[p], n, tile[p], own[p], p);
    }
    RunRewrite(ps, r, n, tile, ls, own, h, Limbo);
  }

  /** The pages after the head of a limbo run are cleared once more. */
  lemma LimboTail(ps: seq<Page>, r: seq<Page>, n: nat, tile: seq<Run>, ls: seq<seq<nat>>, own: seq<int>, h: nat, k: nat)
    requires PoolOK(ps, n, tile, ls, own) && |r| == |ps| && h < n && tile[h] == Run(h, k, Limbo)
    requires forall p :: 0 <= p < |ps| && !(h < p < h + k) ==> r[p] == ps[p]
    requires forall p :: h < p < h + k && p < n ==> r[p] == Page(PAGE_FREE, [], NULL, NULL, PageTag)
    ensures PoolOK(r, n, tile, ls, own) && h + k <= n
  {
    RunBoundary(tile, h);
    Agree(tile, h, h);
    forall p | 0 <= p < n && InRun(tile[h], p) ensures own[p] == -1 && PageOK(r[p], n, tile[p], own[p], p) {
      Agree(tile, h, p);
      assert PageOK(ps[p], n, tile[p], own[p], p);
    }
    forall p | 0 <= p < n ensures PageOK(r[p], n, tile[p], own[p], p) {
      assert PageOK(ps[p], n, tile[p], own[p], p);
    }
    ListsOffFrame(ps, r, n, ls, own);
  }

  /** The head of a free run is on the free list. */
  lemma FreeHead(ps: seq<Page>, n: nat, tile: seq<Run>, ls: seq<seq<nat>>, own: seq<int>, h: nat) returns (i: nat)
    requires PoolOK(ps, n, tile, ls, own) && h < n && tile[h].start == h && tile[h].kind == Free
    ensures FreeAt(ps, n, tile, ls, own, h, i) && ps[h].next != NULL && ps[h].tag == PageTag
    ensures ps[h].slab == tile[h].len && h + tile[h].len <= n
  {
    i := RightIsFree(ps, n, tile, ls, own, h);
    FreeAtFacts(ps, n, tile, ls, own, h, i);
  }

  /** The code's test for a free neighbour on the right. */
  lemma RightIsFree(ps: seq<Page>, n: nat, tile: seq<Run>, ls: seq<seq<nat>>, own: seq<int>, e: nat) returns (i: nat)
    requires PoolOK(ps, n, tile, ls, own) && e < n && tile[e].start == e && tile[e].kind != Limbo
    ensures tile[e].kind == Free <==> ps[e].tag == PageTag && ps[e].next != NULL
    ensures tile[e].kind == Free ==> FreeAt(ps, n, tile, ls, own, e, i) && tile[e].len == ps[e].slab
  {
    assert PageOK(ps[e], n, tile[e], own[e], e);
    i := 0;
    if tile[e].kind == Free {
      assert e in ls[0];
      i := IndexOf(ls[0], e);
      FreeAtFacts(ps, n, tile, ls, own, e, i);
    }
  }

  /** The code's walk from the last page of the neighbour on the left to its head. */
  function LeftHead(ps: seq<Page>, q: nat): (g: int)
    requires q < |ps|
  {
    if ps[q].slab == PAGE_FREE then ps[q].prev else q
  }

  lemma LeftIsFree(ps: seq<Page>, n: nat, tile: seq<Run>, ls: seq<seq<nat>>, own: seq<int>, q: nat) returns (i: nat)
    requires PoolOK(ps, n, tile, ls, own) && q + 1 < n && End(tile[q]) == q + 1 && tile[q].kind != Limbo
    ensures ps[q].tag == PageTag ==> 0 <= LeftHead(ps, q) < n
    ensures tile[q].kind == Free <==> ps[q].tag == PageTag && ps[LeftHead(ps, q)].next != NULL
    ensures tile[q].kind == Free ==>
      && LeftHead(ps, q) == tile[q].start
      && FreeAt(ps, n, tile, ls, own, tile[q].start, i) && tile[q].len == ps[tile[q].start].slab
  {
    assert PageOK(ps[q], n, tile[q], own[q], q);
    i := 0;
    if tile[q].kind == Free {
      var g := tile[q].start;
      RunBoundary(tile, q);
      Agree(tile, q, g);
      i := RightIsFree(ps, n, tile, ls, own, g);
    }
  }

  lemma FreeInside(ps: seq<Page>, n: nat, tile: seq<Run>, own: seq<int>, h: nat, t: nat, q: nat)
    requires PagesOK(ps, n, tile, own) && TileOK(tile) && h < n && tile[h].start == h && tile[h].kind == Limbo
    requires t == End(tile[h]) - 1 && t < n && (h < t ==> ps[t].prev == h)
    requires h < q < n && InRun(tile[h], q)
    ensures own[q] == -1 && PageOK(ps[q], n, tile[h].(kind := Free), -1, q)
  {
    Agree(tile, h, q);
    assert PageOK(ps[q], n, tile[q], own[q], q);
  }

  /** A limbo run with its length and its back pointer in place goes on the free list. */
  lemma FreePush(ps: seq<Page>, r: seq<Page>, n: nat, tile: seq<Run>, ls: seq<seq<nat>>, own: seq<int>, h: nat, t: nat)
    requires PoolOK(ps, n, tile, ls, own) && |r| == |ps| && h < n && tile[h].start == h && tile[h].kind == Limbo
    requires own[h] == -1 && t == End(tile[h]) - 1 && t < n && ps[h].slab == tile[h].len
    requires h < t ==> ps[t].prev == h
    requires PushedFront(ps, r, n, 0, ls[0], h) && OnlyList(ps, r, n, 0, ls[0], [h])
    requires forall q :: 0 <= q < n && q != h ==>
      r[q].slab == ps[q].slab && r[q].bits == ps[q].bits && r[q].tag == ps[q].tag
    requires r[h].slab == ps[h].slab
    ensures PoolOK(r, n, Flip(tile, h, Free), ls[0 := [h] + ls[0]], own[h := 0])
  {
    forall q | h < q < n && InRun(tile[h], q) ensures PageOK(ps[q], n, tile[h].(kind := Free), -1, q) && own[q] == -1 {
      FreeInside(ps, n, tile, own, h, t, q);
    }
    PushPool(ps, r, n, tile, ls, own, 0, h, Free);
  }

  const CLEARED: Page := Page(PAGE_FREE, [], NULL, NULL, PageTag)

  /** Two adjacent runs, headed by a and b, become the run of a; x, one of the two, is
      free and leaves the free list. */
  function Absorb(ps: seq<Page>, a: nat, b: nat, x: nat): (r: seq<Page>)
    requires a < |ps| && b < |ps| && x < |ps| && 0 <= ps[x].prev < |ps| && 0 <= ps[x].next < |ps|
  {
    var ps1 := ps[a := ps[a].(slab := ps[a].slab + ps[b].slab)];
    Unlink(ps1, x)[b := CLEARED]
  }

  lemma AbsorbAt(ps: seq<Page>, n: nat, a: nat, b: nat, x: nat, q: nat)
    requires |ps| == n + LISTS && a < b < n && (x == a || x == b) && q < n + LISTS
    requires 0 <= ps[x].prev < |ps| && 0 <= ps[x].next < |ps| && ps[x].prev != x
    ensures |Absorb(ps, a, b, x)| == |ps|
    ensures q != a && q != b ==> Absorb(ps, a, b, x)[q] == Unlink(ps, x)[q]
    ensures Absorb(ps, a, b, x)[b] == CLEARED
    ensures Absorb(ps, a, b, x)[a].slab == ps[a].slab + ps[b].slab
  {
    var ps1 := ps[a := ps[a].(slab := ps[a].slab + ps[b].slab)];
    UnlinkFields(ps, x, q);
    UnlinkFields(ps1, x, q);
    UnlinkFields(ps1, x, a);
  }

  /** One of the two runs is free, at i in the free list, the other is in limbo. */
  ghost predicate CanAbsorb(ps: seq<Page>, n: nat, tile: seq<Run>, ls: seq<seq<nat>>, own: seq<int>, a: nat,
      b: nat, x: nat, i: nat) {
    && FreeAt(ps, n, tile, ls, own, x, i)
    && a < b < n && (x == a || x == b)
    && tile[a].start == a && End(tile[a]) == b && tile[b].start == b
    && tile[a].len == ps[a].slab && tile[b].len == ps[b].slab
    && (if x == a then tile[b].kind == Limbo else tile[a].kind == Limbo)
  }

  /** r is u, with the two heads rewritten. */
  ghost predicate IsAbsorb(ps: seq<Page>, u: seq<Page>, r: seq<Page>, n: nat, a: nat, b: nat) {
    && |ps| == |u| == |r| == n + LISTS && a < b < n
    && r[b] == CLEARED && r[a].slab == ps[a].slab + ps[b].slab
    && forall q :: 0 <= q < n + LISTS && q != a && q != b ==> r[q] == u[q]
  }

  lemma AbsorbWrites(ps: seq<Page>, n: nat, a: nat, b: nat, x: nat)
    requires |ps| == n + LISTS && a < b < n && (x == a || x == b)
    requires 0 <= ps[x].prev < |ps| && 0 <= ps[x].next < |ps| && ps[x].prev != x
    ensures |Unlink(ps, x)| == |ps| && IsAbsorb(ps, Unlink(ps, x), Absorb(ps, a, b, x), n, a, b)
  {
    UnlinkFields(ps, x, a);
    AbsorbAt(ps, n, a, b, x, a);
    forall q | 0 <= q < n + LISTS && q != a && q != b ensures Absorb(ps, a, b, x)[q] == Unlink(ps, x)[q] {
      AbsorbAt(ps, n, a, b, x, q);
    }
  }

  lemma AbsorbUnlink(ps: seq<Page>, n: nat, tile: seq<Run>, ls: seq<seq<nat>>, own: seq<int>, a: nat, b: nat,
      x: nat, i: nat)
      returns (u: seq<Page>)
    requires CanAbsorb(ps, n, tile, ls, own, a, b, x, i)
    ensures 0 <= ps[x].prev < |ps| && 0 <= ps[x].next < |ps| && tile[x].kind == Free
    ensures PoolOK(u, n, Flip(tile, x, Limbo), ls[0 := RemoveAt(ls[0], i)], own[x := -1])
    ensures KeepsBusy(ps, u, n, tile, own, own[x := -1])
    ensures IsAbsorb(ps, u, Absorb(ps, a, b, x), n, a, b)
  {
    FreeAtFacts(ps, n, tile, ls, own, x, i);
    UnlinkPool(ps, n, tile, ls, own, x, i);
    UnlinkKeeps(ps, n, tile, ls, own, x, i);
    AbsorbWrites(ps, n, a, b, x);
    u := Unlink(ps, x);
  }

  lemma AbsorbPool(ps: seq<Page>, u: seq<Page>, r: seq<Page>, n: nat, tile: seq<Run>, t: seq<Run>, ls: seq<seq<nat>>,
                   own: seq<int>, own': seq<int>, a: nat, b: nat, x: nat, m: Run)
    requires |tile| == n && TileOK(tile) && a < b < n && (x == a || x == b)
    requires tile[a].start == a && End(tile[a]) == b && tile[b].start == b
    requires |ps| == n + LISTS && tile[a].len == ps[a].slab && tile[b].len == ps[b].slab
    requires if x == a then tile[b].kind == Limbo && tile[a].kind == Free
      else tile[a].kind == Limbo && tile[b].kind == Free
    requires t == Flip(tile, x, Limbo) && PoolOK(u, n, t, ls, own') && KeepsBusy(ps, u, n, tile, own, own')
    requires m == Run(a, tile[a].len + tile[b].len, Limbo)
    requires IsAbsorb(ps, u, r, n, a, b)
    ensures r[a].slab == m.len
    ensures PoolOK(r, n, SetRun(tile, m), ls, own')
    ensures KeepsBusy(ps, r, n, tile, own, own')
  {
    AbsorbMerge(u, r, n, tile, t, ls, own', a, b, x, m);
  }

  lemma AbsorbMerge(u: seq<Page>, r: seq<Page>, n: nat, tile: seq<Run>, t: seq<Run>, ls: seq<seq<nat>>, own: seq<int>,
                    a: nat, b: nat, x: nat, m: Run)
    requires |u| == |r| == n + LISTS && |tile| == n && TileOK(tile) && a < b < n && (x == a || x == b)
    requires t == Flip(tile, x, Limbo) && PoolOK(u, n, t, ls, own)
    requires tile[a].start == a && End(tile[a]) == b && tile[b].start == b
    requires if x == a then tile[b].kind == Limbo else tile[a].kind == Limbo
    requires m == Run(a, tile[a].len + tile[b].len, Limbo)
    requires r[b] == CLEARED && forall q :: 0 <= q < n + LISTS && q != a && q != b ==> r[q] == u[q]
    ensures PoolOK(r, n, SetRun(tile, m), ls, own)
  {
    Agree(tile, a, a);
    Agree(tile, b, b);
    assert t[a] == tile[a].(kind := Limbo) && t[b] == tile[b].(kind := Limbo);
    MergePool(u, r, n, t, ls, own, a, b, m);
    SetRunOver(tile, tile[x].(kind := Limbo), m);
  }

  /** A busy head is on a list exactly when its link is set. */
  lemma OnList(ps: seq<Page>, n: nat, tile: seq<Run>, ls: seq<seq<nat>>, own: seq<int>, h: nat)
    requires PoolOK(ps, n, tile, ls, own) && h < n && tile[h].start == h && tile[h].kind == Busy
    ensures ps[h].next == NULL <==> own[h] == -1
    ensures own[h] == -1 || (0 < own[h] < LISTS && tile[h].len == 1 && ps[h].tag == ListTag(own[h]))
    ensures own[h] == -1 || h in ls[own[h]]
  {
    assert PageOK(ps[h], n, tile[h], own[h], h);
    if own[h] != -1 {
      var j := own[h];
      assert ListOK(ps, n, j, ls[j]) && h in ls[j];
      var i := IndexOf(ls[j], h);
      assert ps[ls[j][i]].next == After(n + j, ls[j], i);
    }
  }

  /** The words of a page of chunks are the chunk layer's own. */
  lemma WordPool(ps: seq<Page>, r: seq<Page>, n: nat, tile: seq<Run>, ls: seq<seq<nat>>, own: seq<int>, h: nat)
    requires PoolOK(ps, n, tile, ls, own) && |r| == |ps| && h < n && tile[h].start == h && tile[h].kind == Busy
    requires ps[h].tag != PageTag
    requires forall p :: 0 <= p < n + LISTS && p != h ==> r[p] == ps[p]
    requires r[h] == ps[h].(slab := r[h].slab, bits := r[h].bits)
    ensures PoolOK(r, n, tile, ls, own)
  {
    assert PageOK(ps[h], n, tile[h], own[h], h);
    ListsOffFrame(ps, r, n, ls, own);
    forall p | 0 <= p < n ensures PageOK(r[p], n, tile[p], own[p], p) {
      assert PageOK(ps[p], n, tile[p], own[p], p);
    }
  }

  /** Unlinking a page of chunks leaves the words of every other busy page alone. */
  lemma UnlinkKeepsChunks(ps: seq<Page>, n: nat, tile: seq<Run>, ls: seq<seq<nat>>, own: seq<int>, h: nat, i: nat)
    requires PoolOK(ps, n, tile, ls, own) && h < n && own[h] > 0 && i < |ls[own[h]]| && ls[own[h]][i] == h
    ensures 0 <= ps[h].prev < |ps| && 0 <= ps[h].next < |ps|
    ensures |Unlink(ps, h)| == |ps| && Unlink(ps, h)[h] == ps[h]
    ensures KeepsBusy(ps, Unlink(ps, h), n, Flip(tile, h, Limbo), own, own[h := -1])
  {
    ListsUnlink(ps, n, ls, own, h, i);
    UnlinkPool(ps, n, tile, ls, own, h, i);
    Agree(tile, h, h);
  }

  lemma KeepsTrans(ps: seq<Page>, u: seq<Page>, r: seq<Page>, n: nat, t1: seq<Run>, t2: seq<Run>,
                   o1: seq<int>, o2: seq<int>, o3: seq<int>)
    requires KeepsBusy(ps, u, n, t1, o1, o2) && KeepsBusy(u, r, n, t2, o2, o3)
    requires forall p :: 0 <= p < n && t1[p].kind == Busy ==> t2[p].kind == Busy
    ensures KeepsBusy(ps, r, n, t1, o1, o3)
  {}

  /** A busy page takes its place at the front of a size class. */
  lemma PushChunks(ps: seq<Page>, r: seq<Page>, n: nat, tile: seq<Run>, ls: seq<seq<nat>>, own: seq<int>, j: nat,
      h: nat)
    requires PoolOK(ps, n, tile, ls, own) && |r| == |ps| && h < n && tile[h] == Run(h, 1, Busy) && own[h] == -1
    requires 0 < j < LISTS && PushedFront(ps, r, n, j, ls[j], h) && OnlyList(ps, r, n, j, ls[j], [h])
    requires forall q :: 0 <= q < n && q != h ==>
      r[q].slab == ps[q].slab && r[q].bits == ps[q].bits && r[q].tag == ps[q].tag
    ensures PoolOK(r, n, tile, ls[j := [h] + ls[j]], own[h := j])
  {
    SetRunSame(tile, h);
    PushPool(ps, r, n, tile, ls, own, j, h, Busy);
  }

  /** A page that has filled up leaves its size class. */
  lemma FullChunks(ps: seq<Page>, n: nat, tile: seq<Run>, ls: seq<seq<nat>>, own: seq<int>, h: nat, i: nat)
    requires PoolOK(ps, n, tile, ls, own) && h < n && own[h] > 0 && i < |ls[own[h]]| && ls[own[h]][i] == h
    requires tile[h].kind == Busy
    ensures 0 <= ps[h].prev < |ps| && 0 <= ps[h].next < |ps| && |Unlink(ps, h)| == |ps|
    ensures Unlink(ps, h)[h] == ps[h]
    ensures var r := Unlink(ps, h)[h := ps[h].(next := NULL, prev := NULL)];
      && PoolOK(r, n, tile, ls[own[h] := RemoveAt(ls[own[h]], i)], own[h := -1])
      && forall q :: 0 <= q < n ==> r[q].slab == ps[q].slab && r[q].bits == ps[q].bits && r[q].tag == ps[q].tag
  {
    var j := own[h];
    var u := Unlink(ps, h);
    var r := u[h := ps[h].(next := NULL, prev := NULL)];
    var t, ls', own' := Flip(tile, h, Limbo), ls[j := RemoveAt(ls[j], i)], own[h := -1];
    assert PageOK(ps[h], n, tile[h], own[h], h);
    Agree(tile, h, h);
    ListsUnlink(ps, n, ls, own, h, i);
    UnlinkPool(ps, n, tile, ls, own, h, i);
    TakeFlip(tile, h);
    SetRunSame(tile, h);
    FullRewrite(u, r, n, t, ls', own', h);
  }

  lemma FullRewrite(u: seq<Page>, r: seq<Page>, n: nat, t: seq<Run>, ls: seq<seq<nat>>, own: seq<int>, h: nat)
    requires PoolOK(u, n, t, ls, own) && |r| == |u| && h < n && t[h] == Run(h, 1, Limbo)
    requires r == u[h := r[h]] && r[h].next == NULL && r[h].tag != PageTag
    ensures PoolOK(r, n, Flip(t, h, Busy), ls, own)
  {
    assert PageOK(u[h], n, t[h], own[h], h);
    RunRewrite(u, r, n, t, ls, own, h, Busy);
  }

  /** The free list holds every free run exactly once, by its head; the head gives the
      length, and the last page points back at the head for the next release. */
  lemma FreeListExact(ps: seq<Page>, n: nat, tile: seq<Run>, ls: seq<seq<nat>>, own: seq<int>, p: nat)
    requires PoolOK(ps, n, tile, ls, own) && NoLimbo(tile) && p < n
    ensures |ls| == LISTS && (p in ls[0] <==> tile[p].kind == Free && tile[p].start == p)
    ensures forall i, j :: 0 <= i < j < |ls[0]| ==> ls[0][i] != ls[0][j]
    ensures tile[p].kind == Free ==> var r := tile[p];
      && ps[r.start].slab == r.len && ps[r.start].next != NULL
      && (r.len > 1 && End(r) < n ==> ps[End(r) - 1].prev == r.start && ps[End(r) - 1].slab == PAGE_FREE)
    ensures tile[p].kind == Busy ==> p !in ls[0]
  {
    FreeListOK(ps, n, tile, ls, own);
    assert PageOK(ps[p], n, tile[p], own[p], p);
    if tile[p].kind == Free {
      var r := tile[p];
      RunBoundary(tile, p);
      Agree(tile, p, p);
      Agree(tile, p, r.start);
      Agree(tile, p, End(r) - 1);
      var i := RightIsFree(ps, n, tile, ls, own, r.start);
      assert PageOK(ps[End(r) - 1], n, r, own[End(r) - 1], End(r) - 1);
    }
  }
}
