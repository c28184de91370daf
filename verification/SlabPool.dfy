/** The pool of page descriptors, changed in place. */
module SlabPool {
  import opened SlabLists
  import opened SlabTiles
  import opened SlabPages
  import opened SlabChunks
  import opened SlabSearch

  // ---------- the writes themselves ----------

  method CutInPlace(pages: array<Page>, h: nat, y: nat)
    requires h < pages.Length && h < y < h + pages[h].slab <= pages.Length
    requires 0 <= pages[h].prev < pages.Length && 0 <= pages[h].next < pages.Length
    requires pages[h].prev != y && pages[h].prev != h && pages[h].next != h
    modifies pages
    ensures pages[..] == CutFree(old(pages[..]), h, y)
  {
    var L := pages[h].slab;
    pages[h + L - 1] := pages[h + L - 1].(prev := y, tag := PageTag);
    pages[y] := pages[y].(slab := L - (y - h), bits := [],
      next := pages[h].next, prev := pages[h].prev, tag := pages[h].tag);
    var p := pages[h].prev;
    pages[p] := pages[p].(next := y);
    var q := pages[h].next;
    pages[q] := pages[q].(prev := y, tag := PageTag);
  }

  method UnlinkInPlace(pages: array<Page>, p: nat)
    requires p < pages.Length && 0 <= pages[p].prev < pages.Length && 0 <= pages[p].next < pages.Length
    modifies pages
    ensures pages[..] == Unlink(old(pages[..]), p)
  {
    var prev := pages[p].prev;
    pages[prev] := pages[prev].(next := pages[p].next);
    var next := pages[p].next;
    pages[next] := pages[next].(prev := pages[p].prev, tag := pages[p].tag);
  }

  /** First fit: the first run of the free list with at least k pages. */
  method FindFit(pages: array<Page>, n: nat, k: nat, ghost l: seq<nat>) returns (h: int, ghost i: nat)
    requires pages.Length == n + LISTS && ListOK(pages[..], n, 0, l)
    ensures i <= |l| && forall m :: 0 <= m < i ==> pages[l[m]].slab < k
    ensures h == NULL ==> i == |l|
    ensures h != NULL ==> 0 <= h < n && i < |l| && l[i] == h && pages[h].slab >= k
  {
    var page := pages[n].next;
    i := 0;
    while page != n
      invariant i <= |l| && page == if i < |l| then l[i] else n
      invariant forall m :: 0 <= m < i ==> pages[l[m]].slab < k
      decreases |l| - i
    {
      if pages[page].slab >= k {
        return page, i;
      }
      assert pages[..][l[i]].next == After(n, l, i);
      page := pages[page].next;
      i := i + 1;
    }
    return NULL, i;
  }

  method MarkBusy(pages: array<Page>, h: nat, k: nat)
    requires 0 < k && h + k <= pages.Length
    modifies pages
    ensures BusyRun(pages[..], h, k)
    ensures forall p :: 0 <= p < pages.Length && !(h <= p < h + k) ==> pages[p] == old(pages[p])
  {
    pages[h] := Page(PAGE_START + k, [], NULL, NULL, PageTag);
    var p, left := h + 1, k - 1;
    while left > 0
      invariant 0 <= left < k && p == h + k - left
      invariant pages[h] == Page(PAGE_START + k, [], NULL, NULL, PageTag)
      invariant forall q :: h < q < p ==> pages[q] == Page(PAGE_BUSY, [], NULL, NULL, PageTag)
      invariant forall q :: 0 <= q < pages.Length && !(h <= q < h + k) ==> pages[q] == old(pages[q])
    {
      pages[p] := Page(PAGE_BUSY, [], NULL, NULL, PageTag);
      p, left := p + 1, left - 1;
    }
  }

  method ClearTail(pages: array<Page>, h: nat, k: nat)
    requires 0 < k && h + k <= pages.Length
    modifies pages
    ensures forall p :: h < p < h + k ==> pages[p] == Page(PAGE_FREE, [], NULL, NULL, PageTag)
    ensures forall p :: 0 <= p < pages.Length && !(h < p < h + k) ==> pages[p] == old(pages[p])
  {
    for p := h + 1 to h + k
      invariant forall q :: h < q < p ==> pages[q] == Page(PAGE_FREE, [], NULL, NULL, PageTag)
      invariant forall q :: 0 <= q < pages.Length && !(h < q < p) ==> pages[q] == old(pages[q])
    {
      pages[p] := Page(PAGE_FREE, [], NULL, NULL, PageTag);
    }
  }

  method PushFree(pages: array<Page>, n: nat, h: nat, ghost l: seq<nat>)
    requires pages.Length == n + LISTS && h < n && ListOK(pages[..], n, 0, l) && h !in l
    modifies pages
    ensures PushedFront(old(pages[..]), pages[..], n, 0, l, h)
    ensures OnlyList(old(pages[..]), pages[..], n, 0, l, [h])
    ensures forall q :: 0 <= q < n && q != h ==>
      pages[q].slab == old(pages[q].slab) && pages[q].bits == old(pages[q].bits) && pages[q].tag == old(pages[q].tag)
    ensures pages[h].slab == old(pages[h].slab)
  {
    ghost var head := pages[n].next;
    assert l != [] ==> l[0] in l;
    pages[h] := pages[h].(prev := n, tag := PageTag);
    pages[h] := pages[h].(next := pages[n].next);
    var next := pages[h].next;
    pages[next] := pages[next].(prev := h, tag := PageTag);
    pages[n] := pages[n].(next := h);
  }

  method AbsorbInPlace(pages: array<Page>, a: nat, b: nat, x: nat)
    requires a < b < pages.Length && (x == a || x == b)
    requires 0 <= pages[x].prev < pages.Length && 0 <= pages[x].next < pages.Length
    modifies pages
    ensures pages[..] == Absorb(old(pages[..]), a, b, x)
  {
    pages[a] := pages[a].(slab := pages[a].slab + pages[b].slab);
    UnlinkInPlace(pages, x);
    pages[b] := CLEARED;
  }

  method PushInPlace(pages: array<Page>, n: nat, j: nat, h: nat, ghost l: seq<nat>)
    requires pages.Length == n + LISTS && h < n && 0 < j < LISTS && ListOK(pages[..], n, j, l) && h !in l
    requires pages[h].tag == ListTag(j)
    modifies pages
    ensures PushedFront(old(pages[..]), pages[..], n, j, l, h)
    ensures OnlyList(old(pages[..]), pages[..], n, j, l, [h])
    ensures SameWords(old(pages[..]), pages[..], n)
  {
    assert l != [] ==> l[0] in l;
    pages[h] := pages[h].(next := pages[n + j].next);
    pages[n + j] := pages[n + j].(next := h);
    pages[h] := pages[h].(prev := n + j);
    var next := pages[h].next;
    pages[next] := pages[next].(prev := h, tag := pages[h].tag);
  }

  /** Clearing the pages of a limbo run changes no busy page. */
  lemma TailKeeps(ps: seq<Page>, u: seq<Page>, r: seq<Page>, n: nat, t: seq<Run>, tile: seq<Run>, o: seq<int>,
      own: seq<int>, h: nat, k: nat)
    requires KeepsBusy(ps, u, n, t, o, own) && |r| == |u| && h < n && t[h].kind == Free && TileOK(t)
    requires |tile| == n && TileOK(tile) && tile == Flip(t, h, Limbo) && tile[h] == Run(h, k, Limbo)
    requires forall p :: 0 <= p < |u| && !(h < p < h + k) ==> r[p] == u[p]
    ensures KeepsBusy(ps, r, n, tile, o, own)
  {
    forall p | 0 <= p < n && tile[p].kind == Busy
      ensures r[p].slab == ps[p].slab && r[p].bits == ps[p].bits && r[p].tag == ps[p].tag && own[p] == o[p]
    {
      Agree(tile, h, p);
      assert t[p].kind == Busy && !InRun(tile[h], p);
    }
  }

  /** Of the runs on a list, that of h is the first of at least k pages. */
  ghost predicate FirstFit(t: seq<Run>, l: seq<nat>, h: int, k: nat) {
    exists i :: 0 <= i < |l| && l[i] == h && Long(t, h, k) && ShortUpTo(t, l, i, k)
  }

  ghost predicate Long(t: seq<Run>, h: int, k: nat) { 0 <= h < |t| && t[h].len >= k }

  ghost predicate ShortUpTo(t: seq<Run>, l: seq<nat>, i: nat, k: nat)
    requires i <= |l|
  {
    forall m :: 0 <= m < i ==> !Long(t, l[m], k)
  }

  lemma LenIsSlab(ps: seq<Page>, n: nat, tile: seq<Run>, ls: seq<seq<nat>>, own: seq<int>, i: nat, h: nat, k: nat)
    requires PoolOK(ps, n, tile, ls, own) && i < |ls[0]| && h == ls[0][i]
    ensures h < n <= |ps| && |tile| == n && (Long(tile, h, k) <==> ps[h].slab >= k)
  {
    FreeAtFacts(ps, n, tile, ls, own, h, i);
  }

  /** The run found is the first on the free list that is long enough. */
  lemma EarlierAreShort(ps: seq<Page>, n: nat, tile: seq<Run>, ls: seq<seq<nat>>, own: seq<int>, k: nat, i: nat)
    requires PoolOK(ps, n, tile, ls, own) && i < |ls[0]| && ls[0][i] < |ps| && ps[ls[0][i]].slab >= k
    requires forall m :: 0 <= m < i ==> ls[0][m] < |ps| && ps[ls[0][m]].slab < k
    ensures FirstFit(tile, ls[0], ls[0][i], k)
  {
    LenIsSlab(ps, n, tile, ls, own, i, ls[0][i], k);
    forall m | 0 <= m < i ensures !Long(tile, ls[0][m], k) {
      LenIsSlab(ps, n, tile, ls, own, m, ls[0][m], k);
    }
  }

  class Pool {
    const n: nat
    const pages: array<Page>
    /** The bitmap words at the start of each page; read only while the page is one of
        small chunks. */
    const mem: array<seq<bool>>
    var reserved: int
    ghost var tile: seq<Run>
    ghost var ls: seq<seq<nat>>
    ghost var own: seq<int>

    ghost predicate Linked()
      reads this, pages
    {
      pages.Length == n + LISTS && PoolOK(pages[..], n, tile, ls, own)
    }

    /** Between operations: tiled, linked, coalesced, and counted. */
    ghost predicate Valid()
      reads this, pages
    {
      && Linked()
      && NoLimbo(tile)
      && Coalesced(tile)
      && reserved == |Reserved(tile)|
    }

    /** Splitting: the run of h keeps h..y-1, the rest stays in the free list in its place. */
    method Cut(h: nat, y: nat, ghost i: nat)
      requires Linked()
      requires h < n && i < |ls[0]| && ls[0][i] == h && h < y < h + pages[h].slab
      modifies this`tile, this`ls, this`own, pages
      ensures Linked()
      ensures old(tile[h]) == Run(h, old(pages[h].slab), Free)
      ensures tile == Split(old(tile), h, y, Limbo) && ls == old(ls[0 := ReplaceAt(ls[0], i, y)])
      ensures KeepsBusy(old(pages[..]), pages[..], n, old(tile), old(own), own)
    {
      ghost var ps := pages[..];
      ghost var t := h + pages[h].slab - 1;
      CutPool(ps, n, tile, ls, own, h, i, y, t);
      CutInPlace(pages, h, y);
      CutKeeps(ps, pages[..], n, tile, ls, own, h, i, y, t);
      tile, ls, own := Split(tile, h, y, Limbo), ls[0 := ReplaceAt(ls[0], i, y)], own[h := -1][y := 0];
    }

    /** A free run leaves the free list. */
    method Withdraw(h: nat, ghost i: nat)
      requires Linked()
      requires h < n && i < |ls[0]| && ls[0][i] == h
      modifies this`tile, this`ls, this`own, pages
      ensures Linked()
      ensures old(tile[h]) == Run(h, old(pages[h].slab), Free)
      ensures tile == Flip(old(tile), h, Limbo) && pages[h] == old(pages[h])
      ensures ls == old(ls[0 := RemoveAt(ls[0], i)])
      ensures KeepsBusy(old(pages[..]), pages[..], n, old(tile), old(own), own)
    {
      ghost var ps := pages[..];
      FreeAtFacts(ps, n, tile, ls, own, h, i);
      UnlinkPool(ps, n, tile, ls, own, h, i);
      UnlinkKeeps(ps, n, tile, ls, own, h, i);
      UnlinkInPlace(pages, h);
      tile, ls, own := Flip(tile, h, Limbo), ls[0 := RemoveAt(ls[0], i)], own[h := -1];
    }

    /** nchan_slab_alloc_pages: the first run of the free list that is long enough gives
        its first k pages. */
    method AllocPages(k: nat) returns (h: int)
      requires Valid() && k > 0
      modifies this`reserved, this`tile, this`ls, this`own, pages
      ensures Valid()
      ensures h == NULL ==>
        && (forall p :: 0 <= p < n && tile[p].kind == Free ==> tile[p].len < k)
        && pages[..] == old(pages[..]) && tile == old(tile) && ls == old(ls) && own == old(own)
      ensures h != NULL ==>
        && 0 <= h < n && old(tile[h].start == h && tile[h].kind == Free && tile[h].len >= k)
        && tile == Taken(old(tile), h, k)
        && BusyRun(pages[..], h, k) && own[h] == -1
        && KeepsBusy(old(pages[..]), pages[..], n, old(tile), old(own), own)
        && FirstFit(old(tile), old(ls[0]), h, k)
    {
      FreeListOK(pages[..], n, tile, ls, own);
      ghost var i;
      h, i := FindFit(pages, n, k, ls[0]);
      if h == NULL {
        NoFitAtAll(pages[..], n, tile, ls, own, k);
      } else {
        EarlierAreShort(pages[..], n, tile, ls, own, k, i);
        TakePages(h, k, i);
      }
    }

    /** The run of h, on the free list, gives its first k pages. */
    method TakePages(h: nat, k: nat, ghost i: nat)
      requires Valid()
      requires h < n && i < |ls[0]| && ls[0][i] == h && 0 < k <= pages[h].slab
      modifies this`reserved, this`tile, this`ls, this`own, pages
      ensures Valid() && reserved == old(reserved) + k
      ensures old(tile[h]) == Run(h, old(pages[h].slab), Free)
      ensures tile == Taken(old(tile), h, k) && BusyRun(pages[..], h, k) && own[h] == -1
      ensures KeepsBusy(old(pages[..]), pages[..], n, old(tile), old(own), own)
    {
      var y := h + k;
      FreeAtFacts(pages[..], n, tile, ls, own, h, i);
      TakenOK(tile, h, k, y);
      Carve(h, k, y, i);
      reserved := reserved + k;
    }

    method Carve(h: nat, k: nat, y: nat, ghost i: nat)
      requires Linked()
      requires h < n && i < |ls[0]| && ls[0][i] == h && 0 < k <= pages[h].slab && y == h + k
      modifies this`tile, this`ls, this`own, pages
      ensures Linked()
      ensures old(tile[h]) == Run(h, old(pages[h].slab), Free)
      ensures tile == Take(old(tile), h, y) && BusyRun(pages[..], h, k) && own[h] == -1
      ensures KeepsBusy(old(pages[..]), pages[..], n, old(tile), old(own), own)
    {
      Loosen(h, y, i);
      Commit(h, k, y, old(pages[..]), old(tile), old(own));
    }

    /** Cut or withdrawn, the pages h..y-1 are in limbo. */
    method Loosen(h: nat, y: nat, ghost i: nat)
      requires Linked()
      requires h < n && i < |ls[0]| && ls[0][i] == h && h < y <= h + pages[h].slab
      modifies this`tile, this`ls, this`own, pages
      ensures Linked()
      ensures old(tile[h]) == Run(h, old(pages[h].slab), Free)
      ensures tile[h] == Run(h, y - h, Limbo) && Flip(tile, h, Busy) == Take(old(tile), h, y)
      ensures forall p :: h <= p < y && p < n ==> old(tile[p]).kind != Busy
      ensures KeepsBusy(old(pages[..]), pages[..], n, old(tile), old(own), own)
    {
      FreeAtFacts(pages[..], n, tile, ls, own, h, i);
      assert forall p :: h <= p < y ==> InRun(tile[h], p);
      if pages[h].slab > y - h {
        TakeSplit(tile, h, y);
        Cut(h, y, i);
      } else {
        TakeFlip(tile, h);
        Withdraw(h, i);
      }
    }

    /** The k pages at h, in limbo, become a busy run. */
    method Commit(h: nat, k: nat, ghost y: nat, ghost ps: seq<Page>, ghost t: seq<Run>, ghost o: seq<int>)
      requires Linked() && h < n && y == h + k && tile[h] == Run(h, k, Limbo)
      requires KeepsBusy(ps, pages[..], n, t, o, own)
      requires forall p :: h <= p < y && p < n ==> t[p].kind != Busy
      modifies this`tile, pages
      ensures Linked() && tile == Flip(old(tile), h, Busy) && BusyRun(pages[..], h, k) && own[h] == -1
      ensures KeepsBusy(ps, pages[..], n, t, o, own)
    {
      ghost var mid := pages[..];
      Agree(tile, h, h);
      assert PageOK(mid[h], n, tile[h], own[h], h);
      MarkBusy(pages, h, k);
      LimboToBusy(mid, pages[..], n, tile, ls, own, h, k);
      tile := Flip(tile, h, Busy);
    }

    /** The runs of a and b, one in limbo and one (that of x) free, become one limbo run. */
    method Absorb(a: nat, b: nat, x: nat, ghost i: nat, ghost m: Run)
      requires Linked() && CanAbsorb(pages[..], n, tile, ls, own, a, b, x, i)
      requires m == Run(a, tile[a].len + tile[b].len, Limbo)
      modifies this`tile, this`ls, this`own, pages
      ensures Linked() && tile == SetRun(old(tile), m) && ls == old(ls[0 := RemoveAt(ls[0], i)])
      ensures pages[a].slab == m.len
      ensures KeepsBusy(old(pages[..]), pages[..], n, old(tile), old(own), own)
    {
      ghost var ps := pages[..];
      ghost var u := AbsorbUnlink(ps, n, tile, ls, own, a, b, x, i);
      AbsorbInPlace(pages, a, b, x);
      AbsorbPool(ps, u, pages[..], n, tile, Flip(tile, x, Limbo), ls[0 := RemoveAt(ls[0], i)],
        own, own[x := -1], a, b, x, m);
      tile, ls, own := SetRun(tile, m), ls[0 := RemoveAt(ls[0], i)], own[x := -1];
    }

    /** The limbo run of h takes in the free run that follows it. */
    method JoinRight(h: nat)
      requires Linked() && h < n && tile[h] == Run(h, pages[h].slab, Limbo) && LimboOnly(tile, tile[h])
      modifies this`tile, this`ls, this`own, pages
      ensures Linked() && tile == SetRun(old(tile), RightJoin(old(tile), h))
      ensures pages[h].slab == tile[h].len
      ensures KeepsBusy(old(pages[..]), pages[..], n, old(tile), old(own), own)
    {
      RunBoundary(tile, h);
      Agree(tile, h, h);
      SetRunSame(tile, h);
      var e := h + pages[h].slab;
      if e < n {
        ghost var i := RightIsFree(pages[..], n, tile, ls, own, e);
        if pages[e].tag == PageTag {
          if pages[e].next != NULL {
            Absorb(h, e, e, i, RightJoin(tile, h));
          }
        }
      }
    }

    /** The limbo run of h is taken in by the free run before it. */
    method JoinLeft(h: nat) returns (g: nat)
      requires Linked() && h < n && tile[h] == Run(h, pages[h].slab, Limbo) && LimboOnly(tile, tile[h])
      modifies this`tile, this`ls, this`own, pages
      ensures Linked() && tile == SetRun(old(tile), LeftJoin(old(tile), h))
      ensures g == LeftJoin(old(tile), h).start && g < n && pages[g].slab == tile[g].len
      ensures KeepsBusy(old(pages[..]), pages[..], n, old(tile), old(own), own)
    {
      RunBoundary(tile, h);
      Agree(tile, h, h);
      SetRunSame(tile, h);
      g := h;
      if h > 0 {
        var q := h - 1;
        Agree(tile, h, q);
        ghost var m := LeftJoin(tile, h);
        var join; ghost var i;
        join, i := FreeBefore(q);
        if join != NULL {
          assert m.start == join && m.len == tile[join].len + tile[h].len;
          Absorb(join, h, join, i, m);
          g := join;
        }
      }
    }

    /** The head of the free run that ends with page q. */
    method FreeBefore(q: nat) returns (join: int, ghost i: nat)
      requires Linked() && q + 1 < n && End(tile[q]) == q + 1 && tile[q].kind != Limbo
      ensures if tile[q].kind == Free then join == tile[q].start && FreeAt(pages[..], n, tile, ls, own, join, i)
              && tile[q].len == pages[tile[q].start].slab
              else join == NULL
    {
      i := LeftIsFree(pages[..], n, tile, ls, own, q);
      join := NULL;
      if pages[q].tag == PageTag {
        join := if pages[q].slab == PAGE_FREE then pages[q].prev else q;
        if pages[join].next == NULL {
          join := NULL;
        }
      }
    }

    /** The run of h, busy or free, leaves the list it is on, if any, and is in limbo. */
    method Detach(h: nat, k: nat)
      requires Linked() && h < n && (tile[h] == Run(h, k, Busy) || tile[h] == Run(h, k, Free))
      modifies this`tile, this`ls, this`own, pages
      ensures Linked() && tile == Flip(old(tile), h, Limbo) && pages[h].slab == k
      ensures KeepsBusy(old(pages[..]), pages[..], n, tile, old(own), own)
    {
      Agree(tile, h, h);
      ghost var i;
      if tile[h].kind == Busy {
        OnList(pages[..], n, tile, ls, own, h);
      } else {
        i := FreeHead(pages[..], n, tile, ls, own, h);
      }
      if pages[h].next == NULL {
        DetachRun(h, k);
      } else if pages[h].tag == PageTag {
        DetachFree(h, k, i);
      } else {
        DetachChunks(h);
      }
    }

    /** A free run that is given back once more. */
    method DetachFree(h: nat, k: nat, ghost i: nat)
      requires Linked() && h < n && tile[h] == Run(h, k, Free) && FreeAt(pages[..], n, tile, ls, own, h, i)
      modifies this`tile, this`ls, this`own, pages
      ensures Linked() && tile == Flip(old(tile), h, Limbo) && pages[h].slab == k
      ensures KeepsBusy(old(pages[..]), pages[..], n, tile, old(own), own)
    {
      Withdraw(h, i);
      ghost var u := pages[..];
      RunBoundary(tile, h);
      Agree(tile, h, h);
      ClearTail(pages, h, k);
      LimboTail(u, pages[..], n, tile, ls, own, h, k);
      TailKeeps(old(pages[..]), u, pages[..], n, old(tile), tile, old(own), own, h, k);
    }

    method DetachRun(h: nat, k: nat)
      requires Linked() && h < n && tile[h] == Run(h, k, Busy) && own[h] == -1 && k > 0 && h + k <= n
      modifies this`tile, pages
      ensures Linked() && tile == Flip(old(tile), h, Limbo) && pages[h].slab == k
      ensures KeepsBusy(old(pages[..]), pages[..], n, tile, own, own)
    {
      ghost var ps := pages[..];
      pages[h] := pages[h].(slab := k, bits := []);
      ClearTail(pages, h, k);
      BusyToLimbo(ps, pages[..], n, tile, ls, own, h, k);
      tile := Flip(tile, h, Limbo);
    }

    method DetachChunks(h: nat)
      requires Linked() && h < n && tile[h] == Run(h, 1, Busy)
      requires 0 < own[h] < LISTS && h in ls[own[h]] && pages[h].tag == ListTag(own[h])
      modifies this`tile, this`ls, this`own, pages
      ensures Linked() && tile == Flip(old(tile), h, Limbo) && pages[h].slab == 1
      ensures KeepsBusy(old(pages[..]), pages[..], n, tile, old(own), own)
    {
      ghost var ps, j := pages[..], own[h];
      pages[h] := pages[h].(slab := 1, bits := []);
      ghost var ps1 := pages[..];
      WordPool(ps, ps1, n, tile, ls, own, h);
      ghost var i := IndexOf(ls[j], h);
      UnlinkPool(ps1, n, tile, ls, own, h, i);
      UnlinkKeepsChunks(ps1, n, tile, ls, own, h, i);
      UnlinkInPlace(pages, h);
      tile, ls, own := Flip(tile, h, Limbo), ls[j := RemoveAt(ls[j], i)], own[h := -1];
    }

    /** The limbo run of h goes to the front of the free list. */
    method PutFree(h: nat)
      requires Linked() && h < n && tile[h] == Run(h, pages[h].slab, Limbo)
      modifies this`tile, this`ls, this`own, pages
      ensures Linked() && tile == Flip(old(tile), h, Free) && ls == old(ls[0 := [h] + ls[0]])
      ensures KeepsBusy(old(pages[..]), pages[..], n, old(tile), old(own), own)
    {
      ghost var ps := pages[..];
      Agree(tile, h, h);
      var len := pages[h].slab;
      var t := h + len - 1;
      if len > 1 {
        Agree(tile, h, t);
        LimboRewrite(ps, ps[t := ps[t].(prev := h, tag := PageTag)], n, tile, ls, own, h, t);
        pages[t] := pages[t].(prev := h, tag := PageTag);
      }
      LimboRewrite(pages[..], pages[..], n, tile, ls, own, h, h);
      ghost var ps1 := pages[..];
      FreeListOK(ps1, n, tile, ls, own);
      PushFree(pages, n, h, ls[0]);
      FreePush(ps1, pages[..], n, tile, ls, own, h, t);
      tile, ls, own := Flip(tile, h, Free), ls[0 := [h] + ls[0]], own[h := 0];
    }

    /** nchan_slab_free_pages: the run of h, merged with its free neighbours, goes on the
        free list.  A run that is free already only moves to the front of the list, but is
        taken off the count of reserved pages once more. */
    method FreePages(h: nat, k: nat)
      requires Valid() && h < n && (tile[h] == Run(h, k, Busy) || tile[h] == Run(h, k, Free))
      modifies this`reserved, this`tile, this`ls, this`own, pages
      ensures Linked() && NoLimbo(tile) && Coalesced(tile) && InRun(old(tile[h]), h)
      ensures tile == Release(old(tile), h) && reserved == old(reserved) - k
      ensures old(tile[h]).kind == Busy ==> Valid()
      ensures old(tile[h]).kind == Free ==> tile == old(tile)
      ensures KeepsBusy(old(pages[..]), pages[..], n, Flip(old(tile), h, Limbo), old(own), own)
      ensures ls[0] != [] && ls[0][0] == tile[h].start
    {
      reserved := reserved - k;
      if tile[h].kind == Busy {
        ReleaseOK(tile, h);
      } else {
        ReleaseFree(tile, h);
      }
      LimboAlone(tile, h);
      ghost var ps, t, o := pages[..], tile, own;
      Detach(h, k);
      Settle(h, ps, t, o);
    }

    method Settle(h: nat, ghost ps: seq<Page>, ghost t: seq<Run>, ghost o: seq<int>)
      requires Linked() && h < n && tile[h] == Run(h, pages[h].slab, Limbo) && LimboOnly(tile, tile[h])
      requires |t| == n && TileOK(t) && t[h].start == h && tile == Flip(t, h, Limbo)
      requires KeepsBusy(ps, pages[..], n, tile, o, own)
      modifies this`tile, this`ls, this`own, pages
      ensures Linked() && InRun(t[h], h) && tile == Release(t, h)
      ensures KeepsBusy(ps, pages[..], n, old(tile), o, own) && ls[0] != [] && ls[0][0] == tile[h].start
    {
      ghost var t1, u1, o1 := tile, pages[..], own;
      RightJoinOK(t1, h);
      JoinRight(h);
      ghost var t2, u2, o2 := tile, pages[..], own;
      KeepsTrans(ps, u1, u2, n, t1, t1, o, o1, o2);
      var s := SettleLeft(h, ps, t1, o);
      ReleaseSteps(t, h, t1, t2, SetRun(t2, LeftJoin(t2, h)), s);
    }

    method SettleLeft(h: nat, ghost ps: seq<Page>, ghost t1: seq<Run>, ghost o: seq<int>) returns (s: nat)
      requires Linked() && h < n && tile[h] == Run(h, pages[h].slab, Limbo) && LimboOnly(tile, tile[h])
      requires SameBusy(t1, tile) && KeepsBusy(ps, pages[..], n, t1, o, own)
      modifies this`tile, this`ls, this`own, pages
      ensures Linked() && s == LeftJoin(old(tile), h).start && s < n
      ensures tile == Flip(SetRun(old(tile), LeftJoin(old(tile), h)), s, Free)
      ensures KeepsBusy(ps, pages[..], n, t1, o, own) && ls[0] != [] && ls[0][0] == s
    {
      ghost var t2, u2, o2 := tile, pages[..], own;
      LeftJoinOK(t2, h);
      s := JoinLeft(h);
      ghost var t3, u3, o3 := tile, pages[..], own;
      KeepsTrans(ps, u2, u3, n, t1, t2, o, o2, o3);
      PutFree(s);
      KeepsTrans(ps, u3, pages[..], n, t1, t3, o, o3, own);
    }

    /** A pool whose pages are all free, in one run. */
    constructor (count: nat)
      requires 0 < count && count * PAGE_SIZE <= ADDRESS_SPACE
      ensures n == count && Slab() && reserved == 0 && fresh(pages) && fresh(mem)
      ensures forall p :: 0 <= p < n ==> tile[p] == Run(0, n, Free)
      ensures forall a: nat :: BlockAt(pages[..], mem[..], n, tile, a) == 0
    {
      n := count;
      reserved := 0;
      pages := new Page[count + LISTS](i => if i >= 0 then FirstPage(count, i) else CLEARED);
      mem := new seq<bool>[count](i => []);
      tile := seq(count, p => Run(0, count, Free));
      ls := [[0]] + seq(LISTS - 1, j => []);
      own := [0] + seq(count - 1, p => -1);
      new;
      FirstPool(pages[..], mem[..], n);
    }

    // ---------- chunks ----------

    /** Both layers, between operations. */
    ghost predicate Slab()
      reads this, pages, mem
    {
      Valid() && mem.Length == n && n * PAGE_SIZE <= ADDRESS_SPACE && ChunksOK(pages[..], mem[..], n, own)
    }

    /** Page p is one of chunks of this class. */
    ghost predicate InClass(p: nat, shift: nat)
      reads this, pages, mem
    {
      && Linked() && mem.Length == n && p < n && MIN_SHIFT <= shift <= MAX_SHIFT
      && tile[p].kind == Busy
      && ShapeOK(pages[p].tag, ViewOf(pages[p], mem[p])) && ViewOf(pages[p], mem[p]).shift == shift
    }

    /** A bit of a page of chunks is written, in the page or in its slab word. */
    method SetBit(p: nat, shift: nat, i: nat, b: bool)
      requires InClass(p, shift) && i < Count(shift)
      modifies pages, mem
      ensures Linked() && (Header(shift) <= i ==> InClass(p, shift))
      ensures BitChange(old(pages[..]), old(mem[..]), pages[..], mem[..], n, p, i, b)
      ensures ViewOf(pages[p], mem[p]) == Chunks(shift, old(ViewOf(pages[p], mem[p]).bits)[i := b])
      ensures pages[p].next == old(pages[p].next)
    {
      ghost var ps := pages[..];
      assert PageOK(ps[p], n, tile[p], own[p], p);
      if shift < EXACT_SHIFT {
        mem[p] := mem[p][i := b];
      } else {
        pages[p] := pages[p].(bits := pages[p].bits[i := b]);
        WordPool(ps, pages[..], n, tile, ls, own, p);
      }
    }

    /** A page that has filled up leaves its class list. */
    method Retire(p: nat)
      requires Linked() && p < n && own[p] > 0 && tile[p].kind == Busy
      modifies this`ls, this`own, pages
      ensures Linked() && own == old(own)[p := -1] && SameWords(old(pages[..]), pages[..], n)
    {
      ghost var ps := pages[..];
      ghost var i := IndexOf(ls[own[p]], p);
      FullChunks(ps, n, tile, ls, own, p, i);
      UnlinkInPlace(pages, p);
      pages[p] := pages[p].(next := NULL, prev := NULL);
      ls, own := ls[own[p] := RemoveAt(ls[own[p]], i)], own[p := -1];
    }

    /** A full page that gets a chunk back goes to the front of its class list. */
    method Enlist(p: nat, shift: nat)
      requires InClass(p, shift) && own[p] == -1
      modifies this`ls, this`own, pages
      ensures InClass(p, shift) && own == old(own)[p := ClassList(shift)]
      ensures SameWords(old(pages[..]), pages[..], n)
    {
      ghost var ps := pages[..];
      assert PageOK(ps[p], n, tile[p], own[p], p);
      Agree(tile, p, p);
      var j := shift - MIN_SHIFT + 1;
      assert ListOK(ps, n, j, ls[j]);
      PushInPlace(pages, n, j, p, ls[j]);
      PushChunks(ps, pages[..], n, tile, ls, own, j, p);
      ls, own := ls[j := [p] + ls[j]], own[p := j];
    }

    /** The first free chunk of a page on its class list: there always is one, so the
        code's walk to the next page of the list never happens. */
    method FindChunk(p: nat, shift: nat) returns (i: nat, full: bool)
      requires Slab() && InClass(p, shift) && own[p] == ClassList(shift)
      ensures i < Count(shift) && Header(shift) <= i && FirstClear(ViewOf(pages[p], mem[p]).bits, i, full)
    {
      assert ChunkPageOK(pages[p].tag, ViewOf(pages[..][p], mem[..][p]), own[p]);
      if shift < EXACT_SHIFT {
        HeaderHoldsBitmap(shift);
        i, full := SearchWords(mem[p]);
      } else {
        i, full := SearchWord(pages[p].bits);
      }
    }

    /** The first free chunk of the page is marked; a page then full leaves its list. */
    method MarkChunk(p: nat, shift: nat) returns (i: nat, full: bool)
      requires Slab() && InClass(p, shift) && own[p] == ClassList(shift)
      modifies this`ls, this`own, pages, mem
      ensures Linked() && i < Count(shift) && BitChange(old(pages[..]), old(mem[..]), pages[..], mem[..], n, p, i, true)
      ensures var bits := old(ViewOf(pages[p], mem[p]).bits); !bits[i] && (full <==> Full(bits[i := true]))
      ensures own == if full then old(own)[p := -1] else old(own)
    {
      ghost var ps, m := pages[..], mem[..];
      i, full := FindChunk(p, shift);
      SetBit(p, shift, i, true);
      ghost var u := pages[..];
      if full {
        Retire(p);
        BitChangeWords(ps, m, u, mem[..], pages[..], n, p, i, true);
      }
    }

    method TakeChunk(p: nat, shift: nat) returns (addr: nat)
      requires Slab() && InClass(p, shift) && own[p] == ClassList(shift)
      modifies this`ls, this`own, pages, mem
      ensures Slab() && tile == old(tile)
      ensures Gained(old(pages[..]), old(mem[..]), old(tile), pages[..], mem[..], tile, n, addr, Size(shift))
    {
      ghost var ps, m, o := pages[..], mem[..], own;
      var i, full := MarkChunk(p, shift);
      addr := ChunkAddr(p, shift, i);
      TakenChunk(ps, m, pages[..], mem[..], n, tile, o, own, p, shift, i, full, addr);
    }

    /** With no page on its class list, a request gets a fresh page. */
    method FreshChunk(shift: nat) returns (addr: int)
      requires Slab() && MIN_SHIFT <= shift <= MAX_SHIFT && ls[ClassList(shift)] == []
      modifies this, pages, mem
      ensures Slab()
      ensures addr == NULL ==>
        && (forall p :: 0 <= p < n ==> tile[p].kind != Free)
        && pages[..] == old(pages[..]) && mem[..] == old(mem[..]) && tile == old(tile) && own == old(own)
      ensures addr != NULL ==>
        && addr >= 0
        && Gained(old(pages[..]), old(mem[..]), old(tile), pages[..], mem[..], tile, n, addr, Size(shift))
    {
      ghost var ps, m, t, l, o := pages[..], mem[..], tile, ls, own;
      var h := AllocPages(1);
      if h == NULL {
        NoFreeRun(tile, n);
        return NULL;
      }
      ghost var base := h * PAGE_SIZE;
      TakenBlocks(ps, pages[..], m, n, t, o, own, h, 1, base);
      TakenChunks(ps, pages[..], m, n, t, o, own, h, 1);
      TakeAt(t, h, h + 1, h);
      Agree(t, h, h);
      ClassStaysEmpty(ps, pages[..], n, t, l, ls, o, own, h, ClassList(shift));
      addr := CutPage(h, shift, base, ps, m, t);
    }

    method CutPage(h: nat, shift: nat, ghost base: nat, ghost ps: seq<Page>, ghost m: seq<seq<bool>>,
        ghost t: seq<Run>) returns (addr: nat)
      requires Slab() && h < n && tile[h] == Run(h, 1, Busy) && own[h] == -1 && pages[h].tag == PageTag
      requires MIN_SHIFT <= shift <= MAX_SHIFT && ls[ClassList(shift)] == []
      requires |ps| == n + LISTS && m == mem[..] && |t| == n && base == h * PAGE_SIZE
      requires BlocksBut(ps, m, t, pages[..], m, tile, n, base) && BlockAt(ps, m, n, t, base) == 0
      modifies this`ls, this`own, pages, mem
      ensures Slab() && Gained(ps, m, t, pages[..], mem[..], tile, n, addr, Size(shift))
    {
      ghost var u, o := pages[..], own;
      var j := shift - MIN_SHIFT + 1;
      FreshLinked(h, shift, j);
      ghost var r, w := pages[..], mem[..];
      addr := ChunkAddr(h, shift, Header(shift));
      FreshPage(ps, u, r, m, w, n, t, tile, o, own, h, shift, base, addr);
    }

    method FreshLinked(h: nat, shift: nat, j: nat)
      requires Linked() && mem.Length == n && h < n && tile[h] == Run(h, 1, Busy) && own[h] == -1
      requires MIN_SHIFT <= shift <= MAX_SHIFT && j == ClassList(shift) && ls[j] == []
      modifies this`ls, this`own, pages, mem
      ensures Linked() && own == old(own)[h := ClassList(shift)]
      ensures pages[h].tag == TagOf(shift) && ViewOf(pages[h], mem[h]) == Chunks(shift, FreshBits(shift))
      ensures forall q :: 0 <= q < n && q != h ==> pages[..][q] == old(pages[..][q]) && mem[..][q] == old(mem[..][q])
    {
      ghost var u := pages[..];
      assert ListOK(u, n, j, ls[j]);
      WritePage(h, shift, j);
      PushChunks(u, pages[..], n, tile, ls, own, j, h);
      ls, own := ls[j := [h] + ls[j]], own[h := j];
    }

    /** The descriptor of a fresh page of chunks, alone on its class list. */
    method WritePage(h: nat, shift: nat, j: nat)
      requires pages.Length == n + LISTS && mem.Length == n && h < n
      requires MIN_SHIFT <= shift <= MAX_SHIFT && j == ClassList(shift) && pages[n + j].next == n + j
      modifies pages, mem
      ensures PushedFront(old(pages[..]), pages[..], n, j, [], h) && OnlyList(old(pages[..]), pages[..], n, j, [], [h])
      ensures pages[h].tag == TagOf(shift) && ViewOf(pages[h], mem[h]) == Chunks(shift, FreshBits(shift))
      ensures forall q :: 0 <= q < n && q != h ==> pages[q] == old(pages[q]) && mem[q] == old(mem[q])
    {
      if shift < EXACT_SHIFT {
        mem[h] := FreshBits(shift);
        pages[h] := Page(shift, [], n + j, n + j, SmallTag);
      } else if shift == EXACT_SHIFT {
        pages[h] := Page(0, FreshBits(shift), n + j, n + j, ExactTag);
      } else {
        pages[h] := Page(shift, FreshBits(shift), n + j, n + j, BigTag);
      }
      pages[n + j] := pages[n + j].(next := h);
    }

    /** The live block at byte a of the pool: its size, or 0. */
    ghost function Block(a: nat): nat
      requires n <= pages.Length && mem.Length == n && |tile| == n
      reads this, pages, mem
    {
      BlockAt(pages[..], mem[..], n, tile, a)
    }

    /** nchan_slab_alloc_locked.  Addresses are byte offsets from the start of the pool. */
    method Alloc(size: nat) returns (addr: int)
      requires Slab()
      modifies this, pages, mem
      ensures Slab()
      ensures addr == NULL ==>
        && Exhausted(old(pages[..]), old(mem[..]), n, old(tile), size)
        && forall a: nat ::
          BlockAt(pages[..], mem[..], n, tile, a) == BlockAt(old(pages[..]), old(mem[..]), n, old(tile), a)
      ensures addr != NULL ==>
        && addr >= 0 && Fits(size, Block(addr))
        && Gained(old(pages[..]), old(mem[..]), old(tile), pages[..], mem[..], tile, n, addr, Block(addr))
    {
      if size > MAX_SIZE {
        addr := AllocRun(size);
      } else if size > Pow2(MIN_SHIFT) {
        var shift := ShiftFor(size);
        FitsClass(size, shift);
        addr := AllocClass(size, shift);
      } else {
        FitsClass(size, MIN_SHIFT);
        addr := AllocClass(size, MIN_SHIFT);
      }
    }

    method AllocRun(size: nat) returns (addr: int)
      requires Slab() && size > MAX_SIZE
      modifies this, pages
      ensures Slab()
      ensures addr == NULL ==>
        && Exhausted(pages[..], mem[..], n, tile, size)
        && pages[..] == old(pages[..]) && tile == old(tile)
      ensures addr != NULL ==>
        && addr >= 0 && Fits(size, Block(addr))
        && Gained(old(pages[..]), mem[..], old(tile), pages[..], mem[..], tile, n, addr, Block(addr))
    {
      ghost var ps, m, t, o := pages[..], mem[..], tile, own;
      var k := PagesFor(size);
      PagesFit(size, k);
      var h := AllocPages(k);
      if h == NULL {
        RunExhausted(ps, m, n, t, size, k);
        return NULL;
      }
      addr := h * PAGE_SIZE;
      TakenBlocks(ps, pages[..], m, n, t, o, own, h, k, addr);
      TakenChunks(ps, pages[..], m, n, t, o, own, h, k);
      assert Block(addr) == k * PAGE_SIZE;
    }

    method AllocClass(size: nat, shift: nat) returns (addr: int)
      requires Slab() && size <= MAX_SIZE && MIN_SHIFT <= shift <= MAX_SHIFT && Fits(size, Size(shift))
      modifies this, pages, mem
      ensures Slab()
      ensures addr == NULL ==>
        && Exhausted(pages[..], mem[..], n, tile, size)
        && pages[..] == old(pages[..]) && mem[..] == old(mem[..]) && tile == old(tile)
      ensures addr != NULL ==>
        && addr >= 0
        && Gained(old(pages[..]), old(mem[..]), old(tile), pages[..], mem[..], tile, n, addr, Size(shift))
    {
      var j := shift - MIN_SHIFT + 1;
      ClassHead(pages[..], n, ls, own, j, n + j);
      var page := pages[n + j].next;
      if pages[page].next != page {
        ClassPage(pages[..], mem[..], n, tile, own, page, shift);
        addr := TakeChunk(page, shift);
      } else {
        addr := FreshChunk(shift);
        if addr == NULL {
          ClassExhausted(pages[..], mem[..], n, tile, ls, own, size, shift);
        }
      }
    }

    /** A live chunk is given back.  Its page leaves the class when that was its last. */
    method FreeChunk(p: nat, shift: nat, i: nat, full: bool, ghost addr: nat)
      requires Slab() && InClass(p, shift) && Header(shift) <= i < Count(shift) && ViewOf(pages[p], mem[p]).bits[i]
      requires full <==> own[p] == -1
      requires addr == p * PAGE_SIZE + i * Size(shift)
      modifies this, pages, mem
      ensures Slab() && Lost(old(pages[..]), old(mem[..]), old(tile), pages[..], mem[..], tile, n, addr)
      ensures if HasLive(shift, old(ViewOf(pages[p], mem[p]).bits)[i := false]) then tile == old(tile)
              else InRun(old(tile[p]), p) && tile == Release(old(tile), p)
    {
      ghost var ps, m, o := pages[..], mem[..], own;
      assert ChunkPageOK(ps[p].tag, ViewOf(ps[p], m[p]), o[p]);
      var empty := ClearChunk(p, shift, i, full);
      FreedChunk(ps, m, pages[..], mem[..], n, tile, o, own, p, shift, i, addr);
      if empty {
        FreeEmpty(p, shift, addr, ps, m);
      }
    }

    /** The page of a chunk whose bit is cleared rejoins its class list if it was full. */
    method ClearChunk(p: nat, shift: nat, i: nat, full: bool) returns (empty: bool)
      requires Slab() && InClass(p, shift) && i < Count(shift)
      requires full <==> own[p] == -1
      modifies this`ls, this`own, pages, mem
      ensures Valid() && (Header(shift) <= i ==> InClass(p, shift))
      ensures BitChange(old(pages[..]), old(mem[..]), pages[..], mem[..], n, p, i, false)
      ensures own == old(own)[p := ClassList(shift)]
      ensures ViewOf(pages[p], mem[p]) == Chunks(shift, old(ViewOf(pages[p], mem[p]).bits)[i := false])
      ensures empty <==> !HasLive(shift, ViewOf(pages[p], mem[p]).bits)
    {
      ghost var ps, m := pages[..], mem[..];
      assert ChunkPageOK(ps[p].tag, ViewOf(ps[p], m[p]), own[p]);
      if full {
        Enlist(p, shift);
      }
      ghost var u := pages[..];
      SetBit(p, shift, i, false);
      WordsBitChange(ps, m, u, mem[..], pages[..], n, p, i, false);
      empty := NoneSet(if shift < EXACT_SHIFT then mem[p] else pages[p].bits, Header(shift));
    }

    /** The same for a chunk of the page's own bitmap: the page holds a live chunk still. */
    method FreeBitmapChunk(p: nat, shift: nat, i: nat, full: bool)
      requires Slab() && InClass(p, shift) && i < Header(shift) && i < Count(shift)
      requires full <==> own[p] == -1
      modifies this, pages, mem
      ensures Valid() && !ChunksOK(pages[..], mem[..], n, own) && tile == old(tile) && reserved == old(reserved)
      ensures BitChange(old(pages[..]), old(mem[..]), pages[..], mem[..], n, p, i, false)
      ensures forall a: nat ::
        BlockAt(pages[..], mem[..], n, tile, a) == BlockAt(old(pages[..]), old(mem[..]), n, old(tile), a)
    {
      ghost var ps, m, o := pages[..], mem[..], own;
      assert ChunkPageOK(ps[p].tag, ViewOf(ps[p], m[p]), o[p]);
      ghost var bits := ViewOf(ps[p], m[p]).bits;
      ghost var k :| Header(shift) <= k < |bits| && bits[k];
      var empty := ClearChunk(p, shift, i, full);
      assert ViewOf(pages[p], mem[p]).bits[k];
      HeaderBlocks(ps, m, pages[..], mem[..], n, tile, o, own, p, i);
      if empty {
        assert false;
      }
    }

    method FreeEmpty(p: nat, shift: nat, ghost addr: nat, ghost ps: seq<Page>, ghost m: seq<seq<bool>>)
      requires Valid() && n * PAGE_SIZE <= ADDRESS_SPACE && InClass(p, shift) &&
        ChunksBut(pages[..], mem[..], n, own, p)
      requires !HasLive(shift, ViewOf(pages[p], mem[p]).bits) && addr / PAGE_SIZE == p
      requires |ps| == n + LISTS && |m| == n && Lost(ps, m, tile, pages[..], mem[..], tile, n, addr)
      modifies this, pages
      ensures Slab() && InRun(old(tile[p]), p) && tile == Release(old(tile), p)
      ensures Lost(ps, m, old(tile), pages[..], mem[..], tile, n, addr)
    {
      ghost var u, t, o := pages[..], tile, own;
      assert PageOK(u[p], n, t[p], o[p], p);
      Agree(tile, p, p);
      FreePages(p, 1);
      FreedPage(ps, m, u, pages[..], mem[..], n, t, o, own, p, addr);
    }

    /** nchan_slab_free_locked.  Exactly the addresses of live blocks are freed; anything
        else that the code notices is reported and changes nothing; and it is fooled by just
        the addresses named before.  Past the last page there is no descriptor to look at. */
    method FreeBlock(addr: int, end: nat) returns (r: FreeResult)
      requires Slab() && n * PAGE_SIZE <= end
      requires 0 <= addr <= end ==> addr / PAGE_SIZE < n
      modifies this, pages, mem
      ensures Slab() <==> !Unnoticed(old(pages[..]), old(mem[..]), n, old(tile), addr)
      ensures r == Freed <==>
        || (addr >= 0 && BlockAt(old(pages[..]), old(mem[..]), n, old(tile), addr) > 0)
        || Unnoticed(old(pages[..]), old(mem[..]), n, old(tile), addr)
      ensures r == Freed && Slab() ==> Lost(old(pages[..]), old(mem[..]), old(tile), pages[..], mem[..], tile, n, addr)
      ensures pages.Length == n + LISTS && mem.Length == |tile| == n
      ensures !Slab() ==>
        Misled(old(pages[..]), old(mem[..]), old(tile), old(reserved), pages[..], mem[..], tile, reserved, n, addr)
      ensures r != Freed ==>
        pages[..] == old(pages[..]) && mem[..] == old(mem[..]) && tile == old(tile) && own == old(own)
      ensures r == OutsideOfPool <==> addr < 0 || addr > end
    {
      if addr < 0 || addr > end {
        return OutsideOfPool;
      }
      var p := addr / PAGE_SIZE;
      match pages[p].tag {
        case PageTag => r := FreeRun(p, addr);
        case SmallTag => r := FreeAddr(p, pages[p].slab, addr);
        case ExactTag => r := FreeAddr(p, EXACT_SHIFT, addr);
        case BigTag => r := FreeAddr(p, pages[p].slab, addr);
      }
    }

    /** The head of a free run passes for that of a busy one. */
    method FreeRun(p: nat, addr: nat) returns (r: FreeResult)
      requires Slab() && p < n && pages[p].tag == PageTag && addr / PAGE_SIZE == p
      modifies this, pages
      ensures r != OutsideOfPool && Linked()
      ensures Slab() <==> !Unnoticed(old(pages[..]), mem[..], n, old(tile), addr)
      ensures r == Freed <==>
        || BlockAt(old(pages[..]), mem[..], n, old(tile), addr) > 0
        || Unnoticed(old(pages[..]), mem[..], n, old(tile), addr)
      ensures r == Freed && Slab() ==> Lost(old(pages[..]), mem[..], old(tile), pages[..], mem[..], tile, n, addr)
      ensures !Slab() ==>
        Misled(old(pages[..]), mem[..], old(tile), old(reserved), pages[..], mem[..], tile, reserved, n, addr)
      ensures r != Freed ==> pages[..] == old(pages[..]) && tile == old(tile) && own == old(own)
    {
      ghost var ps, t, o := pages[..], tile, own;
      WholeAt(ps, mem[..], n, t, o, p, addr);
      if addr % PAGE_SIZE != 0 {
        return WrongChunk;
      }
      if pages[p].slab == PAGE_FREE {
        return PageAlreadyFree;
      }
      if pages[p].slab == PAGE_BUSY {
        return WrongPage;
      }
      Agree(tile, p, p);
      assert PageOK(ps[p], n, t[p], o[p], p);
      var size := if pages[p].slab >= PAGE_START then pages[p].slab - PAGE_START else pages[p].slab;
      FreePages(p, size);
      if t[p].kind == Busy {
        FreedRun(ps, pages[..], mem[..], n, t, o, own, p, addr);
      } else {
        AgainBlocks(ps, pages[..], mem[..], n, t, o, own, p);
      }
      return Freed;
    }

    /** An address in a page of chunks: it must be the start of a chunk, and in use. */
    method FreeAddr(p: nat, shift: nat, addr: nat) returns (r: FreeResult)
      requires Slab() && p < n && pages[p].tag != PageTag && addr / PAGE_SIZE == p
      requires shift == ViewOf(pages[p], mem[p]).shift
      modifies this, pages, mem
      ensures r != OutsideOfPool && Linked()
      ensures Slab() <==> !Unnoticed(old(pages[..]), old(mem[..]), n, old(tile), addr)
      ensures r == Freed <==>
        || BlockAt(old(pages[..]), old(mem[..]), n, old(tile), addr) > 0
        || Unnoticed(old(pages[..]), old(mem[..]), n, old(tile), addr)
      ensures r == Freed && Slab() ==> Lost(old(pages[..]), old(mem[..]), old(tile), pages[..], mem[..], tile, n, addr)
      ensures !Slab() ==>
        Misled(old(pages[..]), old(mem[..]), old(tile), old(reserved), pages[..], mem[..], tile, reserved, n, addr)
      ensures r != Freed ==>
        pages[..] == old(pages[..]) && mem[..] == old(mem[..]) && tile == old(tile) && own == old(own)
    {
      assert ChunkPageOK(pages[p].tag, ViewOf(pages[..][p], mem[..][p]), own[p]);
      assert PageOK(pages[..][p], n, tile[p], own[p], p);
      var i := ChunkIndexAt(shift, addr % PAGE_SIZE);
      ChunkAtAddr(pages[..], mem[..], n, tile, p, shift, i, addr);
      if i == NULL {
        return WrongChunk;
      }
      r := FreeChunkAt(p, shift, i, addr);
    }

    method FreeChunkAt(p: nat, shift: nat, i: nat, ghost addr: nat) returns (r: FreeResult)
      requires Slab() && InClass(p, shift) && i < Count(shift) && addr == ChunkAddr(p, shift, i)
      modifies this, pages, mem
      ensures r == if old(ViewOf(pages[p], mem[p]).bits)[i] then Freed else AlreadyFree
      ensures Linked() && (Slab() <==> Header(shift) <= i)
      ensures r == Freed && Slab() ==> Lost(old(pages[..]), old(mem[..]), old(tile), pages[..], mem[..], tile, n, addr)
      ensures !Slab() ==>
        && tile == old(tile) && reserved == old(reserved)
        && BitChange(old(pages[..]), old(mem[..]), pages[..], mem[..], n, p, i, false)
        && forall a: nat ::
          BlockAt(pages[..], mem[..], n, tile, a) == BlockAt(old(pages[..]), old(mem[..]), n, old(tile), a)
      ensures r != Freed ==>
        pages[..] == old(pages[..]) && mem[..] == old(mem[..]) && tile == old(tile) && own == old(own)
    {
      var bits := if shift < EXACT_SHIFT then mem[p] else pages[p].bits;
      if !bits[i] {
        return AlreadyFree;
      }
      var full := IsFull(p, shift);
      if i < Header(shift) {
        FreeBitmapChunk(p, shift, i, full);
      } else {
        FreeChunk(p, shift, i, full, addr);
      }
      return Freed;
    }

    /** Full pages of small and big chunks are told by their null link, of exact chunks by
        their bitmap. */
    method IsFull(p: nat, shift: nat) returns (full: bool)
      requires Slab() && p < n && pages[p].tag == TagOf(shift) && pages[p].tag != PageTag
      ensures full <==> own[p] == -1
    {
      assert ChunkPageOK(pages[p].tag, ViewOf(pages[..][p], mem[..][p]), own[p]);
      assert PageOK(pages[..][p], n, tile[p], own[p], p);
      Agree(tile, p, p);
      OnList(pages[..], n, tile, ls, own, p);
      if shift == EXACT_SHIFT {
        full := AllSet(pages[p].bits);
      } else {
        full := pages[p].next == NULL;
      }
    }
  }

  /** The number of the chunk that starts `off` bytes into a page, or NULL. */
  method ChunkIndexAt(shift: nat, off: nat) returns (i: int)
    requires MIN_SHIFT <= shift <= MAX_SHIFT && off < PAGE_SIZE
    ensures if i == NULL then off % Size(shift) != 0 else 0 <= i < Count(shift) && off == i * Size(shift)
  {
    SizeTable(shift);
    i := if off % Size(shift) != 0 then NULL else off / Size(shift);
  }

  lemma FitsClass(size: nat, shift: nat)
    requires MIN_SHIFT <= shift <= MAX_SHIFT && size <= MAX_SIZE
    requires size <= Pow2(shift) && (shift == MIN_SHIFT || Pow2(shift - 1) < size)
    ensures Fits(size, Size(shift))
  {
    SizeTable(shift);
  }
}
