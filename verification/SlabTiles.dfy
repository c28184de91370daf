/** Tilings of the page array into runs, the abstract state of the page allocator. */
module SlabTiles {

  /** A run is free (on the free list), busy (one block, or one page of chunks), or in
      limbo: between lists, in the middle of an operation. */
  datatype Kind = Free | Busy | Limbo
  datatype Run = Run(start: nat, len: nat, kind: Kind)

  function End(r: Run): nat { r.start + r.len }

  predicate InRun(r: Run, p: int) { r.start <= p < End(r) }

  /** tile[p] is the run that holds page p: it contains p, it stays inside the pool, and
      every other page it spans agrees. */
  ghost predicate TileOK(tile: seq<Run>) {
    && (forall p :: 0 <= p < |tile| ==> InRun(tile[p], p) && End(tile[p]) <= |tile|)
    && (forall p, q :: 0 <= p < |tile| && 0 <= q < |tile| && InRun(tile[p], q) ==> tile[q] == tile[p])
  }

  /** Coalescing is complete: no two different free runs touch. */
  ghost predicate Coalesced(tile: seq<Run>) {
    forall p :: 0 < p < |tile| && tile[p].kind == Free && tile[p - 1].kind == Free ==> tile[p] == tile[p - 1]
  }

  ghost predicate NoLimbo(tile: seq<Run>) {
    forall p :: 0 <= p < |tile| ==> tile[p].kind != Limbo
  }

  ghost predicate LimboOnly(tile: seq<Run>, r: Run) {
    forall p :: 0 <= p < |tile| && tile[p].kind == Limbo ==> tile[p] == r
  }

  function SetRun(tile: seq<Run>, r: Run): (t: seq<Run>)
    ensures |t| == |tile|
    ensures forall p :: 0 <= p < |t| ==> t[p] == if InRun(r, p) then r else tile[p]
  {
    seq(|tile|, p requires 0 <= p < |tile| => if InRun(r, p) then r else tile[p])
  }

  /** Pages that are not in a free run. */
  function Reserved(tile: seq<Run>): set<nat> {
    set p: nat | p < |tile| && tile[p].kind != Free
  }

  function Pages(r: Run): set<nat> {
    set p: nat | p < End(r) && InRun(r, p)
  }

  lemma {:induction false} PagesSize(r: Run)
    ensures |Pages(r)| == r.len
    decreases r.len
  {
    if r.len == 0 {
      assert Pages(r) == {};
    } else {
      var r' := Run(r.start, r.len - 1, r.kind);
      PagesSize(r');
      assert InRun(r, End(r')) && End(r') in Pages(r);
      assert Pages(r) == Pages(r') + {End(r')};
    }
  }

  lemma Agree(tile: seq<Run>, p: nat, q: nat)
    requires TileOK(tile) && p < |tile| && q < |tile|
    ensures InRun(tile[p], p) && tile[p].len > 0
    ensures InRun(tile[p], q) ==> tile[q] == tile[p]
  {}

  /** r starts and ends on run boundaries of the tiling. */
  ghost predicate Aligned(tile: seq<Run>, r: Run) {
    && r.len > 0 && End(r) <= |tile|
    && tile[r.start].start == r.start
    && (End(r) < |tile| ==> tile[End(r)].start == End(r))
  }

  lemma AlignedOutside(tile: seq<Run>, r: Run, p: nat, q: nat)
    requires TileOK(tile) && Aligned(tile, r)
    requires p < |tile| && !InRun(r, p) && q < |tile| && InRun(tile[p], q)
    ensures !InRun(r, q)
  {
    Agree(tile, p, p);
    Agree(tile, p, r.start);
    Agree(tile, p, q);
    if End(r) < |tile| {
      Agree(tile, p, End(r));
    }
  }

  /** Joining whole runs into one. */
  lemma SetRunTiles(tile: seq<Run>, r: Run)
    requires TileOK(tile) && Aligned(tile, r)
    ensures TileOK(SetRun(tile, r))
  {
    var t := SetRun(tile, r);
    forall p, q | 0 <= p < |t| && 0 <= q < |t| && InRun(t[p], q) ensures t[q] == t[p] {
      if !InRun(r, p) {
        AlignedOutside(tile, r, p, q);
      }
    }
  }

  /** Cutting the run of h in two at y. */
  function Split(tile: seq<Run>, h: nat, y: nat, first: Kind): (t: seq<Run>)
    requires h < |tile| && tile[h].start == h && h < y < End(tile[h])
    ensures |t| == |tile|
  {
    SetRun(SetRun(tile, Run(h, y - h, first)), Run(y, End(tile[h]) - y, tile[h].kind))
  }

  lemma SplitAt(tile: seq<Run>, h: nat, y: nat, first: Kind, p: nat)
    requires TileOK(tile) && h < |tile| && tile[h].start == h && h < y < End(tile[h]) && p < |tile|
    ensures Split(tile, h, y, first)[p] ==
      if !InRun(tile[h], p) then tile[p]
      else if p < y then Run(h, y - h, first)
      else Run(y, End(tile[h]) - y, tile[h].kind)
  {}

  lemma SplitTiles(tile: seq<Run>, h: nat, y: nat, first: Kind)
    requires TileOK(tile) && h < |tile| && tile[h].start == h && h < y < End(tile[h])
    ensures TileOK(Split(tile, h, y, first))
  {
    var t := Split(tile, h, y, first);
    RunBoundary(tile, h);
    forall p | 0 <= p < |t| ensures InRun(t[p], p) && End(t[p]) <= |t| {
      SplitAt(tile, h, y, first, p);
    }
    forall p, q | 0 <= p < |t| && 0 <= q < |t| && InRun(t[p], q) ensures t[q] == t[p] {
      SplitAt(tile, h, y, first, p);
      SplitAt(tile, h, y, first, q);
      if !InRun(tile[h], p) {
        AlignedOutside(tile, tile[h], p, q);
      }
    }
  }

  /** Distinct runs do not overlap. */
  lemma RunsApart(tile: seq<Run>, p: nat, q: nat)
    requires TileOK(tile) && p < |tile| && q < |tile| && tile[p] != tile[q]
    ensures End(tile[p]) <= tile[q].start || End(tile[q]) <= tile[p].start
  {
    Agree(tile, p, p);
    Agree(tile, q, q);
    Agree(tile, p, tile[q].start);
    Agree(tile, q, tile[q].start);
    Agree(tile, p, tile[p].start);
    Agree(tile, q, tile[p].start);
  }

  /** The neighbours of a run are whole runs. */
  lemma RunBoundary(tile: seq<Run>, p: nat)
    requires TileOK(tile) && p < |tile|
    ensures tile[tile[p].start] == tile[p]
    ensures End(tile[p]) < |tile| ==> tile[End(tile[p])].start == End(tile[p])
    ensures tile[p].start > 0 ==> End(tile[tile[p].start - 1]) == tile[p].start
  {
    var r := tile[p];
    Agree(tile, p, r.start);
    Agree(tile, p, End(r) - 1);
    if End(r) < |tile| {
      Agree(tile, End(r), End(r) - 1);
    }
    if r.start > 0 {
      Agree(tile, r.start - 1, r.start);
    }
  }

  // ---------- taking and giving back pages ----------

  function Flip(tile: seq<Run>, h: nat, kind: Kind): (t: seq<Run>)
    requires h < |tile|
    ensures |t| == |tile|
  {
    SetRun(tile, tile[h].(kind := kind))
  }

  lemma FlipTiles(tile: seq<Run>, h: nat, kind: Kind)
    requires TileOK(tile) && h < |tile| && tile[h].start == h
    ensures TileOK(Flip(tile, h, kind))
  {
    RunBoundary(tile, h);
    Agree(tile, h, h);
    SetRunTiles(tile, tile[h].(kind := kind));
  }

  /** What taking the pages h..y-1 of the free run of h does to the tiling. */
  function Take(tile: seq<Run>, h: nat, y: nat): (t: seq<Run>)
    requires h < |tile| && tile[h].start == h && h < y <= End(tile[h])
    ensures |t| == |tile|
  {
    if y == End(tile[h]) then Flip(tile, h, Busy) else Split(tile, h, y, Busy)
  }

  lemma TakeAt(tile: seq<Run>, h: nat, y: nat, p: nat)
    requires TileOK(tile) && h < |tile| && tile[h].start == h && h < y <= End(tile[h]) && p < |tile|
    ensures Take(tile, h, y)[p] ==
      if !InRun(tile[h], p) then tile[p]
      else if p < y then Run(h, y - h, Busy)
      else Run(y, End(tile[h]) - y, tile[h].kind)
  {
    if y < End(tile[h]) {
      SplitAt(tile, h, y, Busy, p);
    }
  }

  function Taken(tile: seq<Run>, h: nat, k: nat): (t: seq<Run>)
    requires h < |tile| && tile[h].start == h && 0 < k <= tile[h].len
    ensures |t| == |tile|
  {
    Take(tile, h, h + k)
  }

  lemma TakeFlip(tile: seq<Run>, h: nat)
    requires TileOK(tile) && h < |tile| && tile[h].start == h
    ensures InRun(tile[h], h)
    ensures Flip(tile, h, Limbo)[h] == tile[h].(kind := Limbo)
    ensures Flip(Flip(tile, h, Limbo), h, Busy) == Flip(tile, h, Busy)
  {
    Agree(tile, h, h);
  }

  lemma TakeSplit(tile: seq<Run>, h: nat, y: nat)
    requires TileOK(tile) && h < |tile| && tile[h].start == h && h < y < End(tile[h])
    ensures Split(tile, h, y, Limbo)[h] == Run(h, y - h, Limbo)
    ensures Flip(Split(tile, h, y, Limbo), h, Busy) == Split(tile, h, y, Busy)
  {
    var s, b := Split(tile, h, y, Limbo), Split(tile, h, y, Busy);
    SplitAt(tile, h, y, Limbo, h);
    forall p | 0 <= p < |tile| ensures Flip(s, h, Busy)[p] == b[p] {
      SplitAt(tile, h, y, Limbo, p);
      SplitAt(tile, h, y, Busy, p);
    }
  }

  lemma TakeCoalesced(tile: seq<Run>, h: nat, y: nat)
    requires TileOK(tile) && Coalesced(tile)
    requires h < |tile| && tile[h].start == h && tile[h].kind == Free && h < y <= End(tile[h])
    ensures Coalesced(Take(tile, h, y))
  {
    var t := Take(tile, h, y);
    forall p | 0 < p < |t| && t[p].kind == Free && t[p - 1].kind == Free ensures t[p] == t[p - 1] {
      TakeAt(tile, h, y, p);
      TakeAt(tile, h, y, p - 1);
      Agree(tile, h, p);
      Agree(tile, h, p - 1);
    }
  }

  /** Taking pages keeps the tiling coalesced and reserves exactly those pages more. */
  lemma TakeOK(tile: seq<Run>, h: nat, y: nat)
    requires TileOK(tile) && NoLimbo(tile) && Coalesced(tile)
    requires h < |tile| && tile[h].start == h && tile[h].kind == Free && h < y <= End(tile[h])
    ensures NoLimbo(Take(tile, h, y)) && Coalesced(Take(tile, h, y))
    ensures |Reserved(Take(tile, h, y))| == |Reserved(tile)| + (y - h)
  {
    var t, r := Take(tile, h, y), Run(h, y - h, Busy);
    forall p | 0 <= p < |t| ensures t[p].kind != Limbo && (t[p].kind != Free <==> tile[p].kind != Free || InRun(r, p)) {
      TakeAt(tile, h, y, p);
      Agree(tile, h, p);
    }
    TakeCoalesced(tile, h, y);
    Agree(tile, h, h);
    PagesSize(r);
    assert Reserved(t) == Reserved(tile) + Pages(r);
    assert Reserved(tile) !! Pages(r) by {
      forall p | p in Pages(r) ensures p !in Reserved(tile) { Agree(tile, h, p); }
    }
  }

  lemma TakenOK(tile: seq<Run>, h: nat, k: nat, y: nat)
    requires TileOK(tile) && NoLimbo(tile) && Coalesced(tile)
    requires h < |tile| && tile[h].start == h && tile[h].kind == Free && 0 < k <= tile[h].len && y == h + k
    ensures Taken(tile, h, k) == Take(tile, h, y)
    ensures NoLimbo(Taken(tile, h, k)) && Coalesced(Taken(tile, h, k))
    ensures |Reserved(Taken(tile, h, k))| == |Reserved(tile)| + k
  {
    TakeOK(tile, h, y);
  }

  /** The run a release leaves: the released one with its free neighbours. */
  function Merged(tile: seq<Run>, h: nat): (m: Run)
    requires h < |tile| && InRun(tile[h], h)
  {
    var r := tile[h];
    var s := if 0 < r.start <= |tile| && tile[r.start - 1].kind == Free then tile[r.start - 1].start else r.start;
    var e := if End(r) < |tile| && tile[End(r)].kind == Free then End(tile[End(r)]) else End(r);
    Run(s, if e >= s then e - s else 0, Free)
  }

  function Release(tile: seq<Run>, h: nat): (t: seq<Run>)
    requires h < |tile| && InRun(tile[h], h)
    ensures |t| == |tile|
  {
    SetRun(tile, Merged(tile, h))
  }

  /** The free neighbours of the released run, and nothing else, are in the merged one. */
  lemma MergedAt(tile: seq<Run>, h: nat, p: nat)
    requires TileOK(tile) && h < |tile| && p < |tile|
    ensures InRun(tile[h], h)
    ensures var m, r := Merged(tile, h), tile[h];
      && InRun(m, h) && End(m) <= |tile| && m.start <= r.start && End(r) <= End(m) && Aligned(tile, m)
      && (InRun(m, p) <==>
            || tile[p] == r
            || (tile[p].kind == Free && End(tile[p]) == r.start)
            || (tile[p].kind == Free && tile[p].start == End(r)))
  {
    var r := tile[h];
    Agree(tile, h, h);
    RunBoundary(tile, h);
    Agree(tile, h, p);
    Agree(tile, p, p);
    if r.start > 0 {
      RunBoundary(tile, r.start - 1);
      Agree(tile, r.start - 1, p);
      Agree(tile, p, r.start - 1);
    }
    if End(r) < |tile| {
      RunBoundary(tile, End(r));
      Agree(tile, End(r), p);
      Agree(tile, p, End(r));
    }
  }

  lemma ReleaseKinds(tile: seq<Run>, h: nat, p: nat)
    requires TileOK(tile) && h < |tile| && tile[h].kind == Busy && p < |tile|
    ensures InRun(tile[h], h)
    ensures Release(tile, h)[p].kind != Free <==> tile[p].kind != Free && !InRun(tile[h], p)
    ensures Release(tile, h)[p].kind == Limbo ==> tile[p].kind == Limbo
    ensures InRun(tile[h], p) ==> tile[p].kind == Busy
  {
    MergedAt(tile, h, p);
    Agree(tile, h, p);
    Agree(tile, p, p);
  }

  lemma ReleaseReserved(tile: seq<Run>, h: nat)
    requires TileOK(tile) && h < |tile| && tile[h].kind == Busy
    ensures InRun(tile[h], h)
    ensures |Reserved(Release(tile, h))| == |Reserved(tile)| - tile[h].len
  {
    ReleaseKinds(tile, h, h);
    var t, r := Release(tile, h), tile[h];
    PagesSize(r);
    forall p: nat | p < |tile|
      ensures p in Reserved(tile) <==> p in Reserved(t) || p in Pages(r)
      ensures !(p in Reserved(t) && p in Pages(r))
    {
      ReleaseKinds(tile, h, p);
    }
    assert Reserved(tile) == Reserved(t) + Pages(r);
  }

  /** Giving a run back keeps the tiling coalesced and unreserves exactly its pages. */
  lemma ReleaseOK(tile: seq<Run>, h: nat)
    requires TileOK(tile) && NoLimbo(tile) && Coalesced(tile) && h < |tile| && tile[h].kind == Busy
    ensures InRun(tile[h], h) && Aligned(tile, Merged(tile, h))
    ensures TileOK(Release(tile, h)) && NoLimbo(Release(tile, h)) && Coalesced(Release(tile, h))
    ensures |Reserved(Release(tile, h))| == |Reserved(tile)| - tile[h].len
  {
    MergedAt(tile, h, h);
    SetRunTiles(tile, Merged(tile, h));
    forall p | 0 <= p < |tile| ensures Release(tile, h)[p].kind != Limbo {
      ReleaseKinds(tile, h, p);
    }
    ReleaseCoalesced(tile, h);
    ReleaseReserved(tile, h);
  }

  lemma ReleaseCoalesced(tile: seq<Run>, h: nat)
    requires TileOK(tile) && Coalesced(tile) && h < |tile| && InRun(tile[h], h) && tile[h].kind == Busy
    ensures Coalesced(Release(tile, h))
  {
    var t := Release(tile, h);
    forall p | 0 < p < |t| && t[p].kind == Free && t[p - 1].kind == Free ensures t[p] == t[p - 1] {
      NeighboursAfter(tile, h, p - 1, p);
    }
  }

  lemma NeighboursAfter(tile: seq<Run>, h: nat, g: nat, p: nat)
    requires TileOK(tile) && Coalesced(tile) && h < |tile| && InRun(tile[h], h) && tile[h].kind == Busy
    requires p < |tile| && p == g + 1 && Release(tile, h)[p].kind == Release(tile, h)[g].kind == Free
    ensures Release(tile, h)[p] == Release(tile, h)[g]
  {
    MergedAt(tile, h, p);
    MergedAt(tile, h, g);
    RunBoundary(tile, p);
    RunBoundary(tile, g);
    Agree(tile, p, p);
    Agree(tile, g, g);
    Agree(tile, g, p);
  }

  /** A free run has no free neighbour, so that giving it back again leaves the runs alone. */
  lemma ReleaseFree(tile: seq<Run>, h: nat)
    requires TileOK(tile) && Coalesced(tile) && h < |tile| && tile[h].start == h && tile[h].kind == Free
    ensures InRun(tile[h], h) && Release(tile, h) == tile
  {
    var r := tile[h];
    Agree(tile, h, h);
    RunBoundary(tile, h);
    if 0 < h {
      Agree(tile, h - 1, h - 1);
    }
    if End(r) < |tile| {
      Agree(tile, h, End(r) - 1);
      Agree(tile, End(r), End(r));
    }
    assert Merged(tile, h) == r;
    SetRunSame(tile, h);
  }

  /** The limbo run of h, extended over a free run after it, or before it. */
  function RightJoin(tile: seq<Run>, h: nat): (r: Run)
    requires h < |tile|
  {
    var e := End(tile[h]);
    if e < |tile| && tile[e].kind == Free then tile[h].(len := tile[h].len + tile[e].len) else tile[h]
  }

  function LeftJoin(tile: seq<Run>, h: nat): (r: Run)
    requires h < |tile|
  {
    if 0 < h && tile[h - 1].kind == Free
      then Run(tile[h - 1].start, tile[h - 1].len + tile[h].len, tile[h].kind) else tile[h]
  }

  lemma SetRunSame(tile: seq<Run>, h: nat)
    requires TileOK(tile) && h < |tile|
    ensures SetRun(tile, tile[h]) == tile
  {
    forall p | 0 <= p < |tile| ensures SetRun(tile, tile[h])[p] == tile[p] { Agree(tile, h, p); }
  }

  lemma SetRunOver(tile: seq<Run>, a: Run, b: Run)
    requires b.start <= a.start && End(a) <= End(b)
    ensures SetRun(SetRun(tile, a), b) == SetRun(tile, b)
  {}

  /** Limbo, then right, then left, then free: together they are one release. */
  lemma ReleaseSteps(tile: seq<Run>, h: nat, t1: seq<Run>, t2: seq<Run>, t3: seq<Run>, s: nat)
    requires TileOK(tile) && h < |tile| && tile[h].start == h
    requires t1 == Flip(tile, h, Limbo)
    requires t2 == SetRun(t1, RightJoin(t1, h))
    requires t3 == SetRun(t2, LeftJoin(t2, h))
    requires s == LeftJoin(t2, h).start
    ensures InRun(tile[h], h) && s < |tile| && Flip(t3, s, Free) == Release(tile, h)
  {
    var r1, r2, r3 := tile[h].(kind := Limbo), RightJoin(t1, h), LeftJoin(t2, h);
    JoinValues(tile, h, t1, t2);
    SetRunOver(tile, r1, r2);
    SetRunOver(tile, r2, r3);
    assert t3[s] == r3;
    SetRunOver(tile, r3, r3.(kind := Free));
  }

  /** The two joins, by the released run r, what follows it and what comes before it. */
  lemma JoinedRight(tile: seq<Run>, h: nat, t1: seq<Run>, r: Run, e: nat)
    requires TileOK(tile) && h < |tile| && r == tile[h] && r.start == h && e == End(r)
    requires t1 == Flip(tile, h, Limbo)
    ensures RightJoin(t1, h) == if e < |tile| && tile[e].kind == Free then Run(h, r.len + tile[e].len, Limbo)
      else Run(h, r.len, Limbo)
    ensures e < |tile| ==> tile[e].start == e
  {
    Agree(tile, h, h);
    RunBoundary(tile, h);
    assert t1[h] == r.(kind := Limbo);
    if e < |tile| {
      Agree(tile, e, e);
      assert t1[e] == tile[e];
    }
  }

  lemma JoinedLeft(tile: seq<Run>, h: nat, t1: seq<Run>, t2: seq<Run>, m: Run, g: nat)
    requires TileOK(tile) && 0 < h < |tile| && tile[h].start == h && g == h - 1
    requires t1 == Flip(tile, h, Limbo) && m.start == h && m.len > 0 && t2 == SetRun(t1, m)
    ensures LeftJoin(t2, h) == if tile[g].kind == Free then Run(tile[g].start, tile[g].len + m.len, m.kind) else m
    ensures End(tile[g]) == h
  {
    Agree(tile, h, h);
    RunBoundary(tile, h);
    Agree(tile, g, g);
    Agree(tile, h, g);
    assert t2[h] == m && t2[g] == tile[g];
  }

  lemma JoinValues(tile: seq<Run>, h: nat, t1: seq<Run>, t2: seq<Run>)
    requires TileOK(tile) && h < |tile| && tile[h].start == h
    requires t1 == Flip(tile, h, Limbo)
    requires t2 == SetRun(t1, RightJoin(t1, h))
    ensures InRun(tile[h], h)
    ensures RightJoin(t1, h).start == h && End(tile[h]) <= End(RightJoin(t1, h))
    ensures LeftJoin(t2, h).start <= h && End(LeftJoin(t2, h)) == End(RightJoin(t1, h)) && LeftJoin(t2, h).len > 0
    ensures LeftJoin(t2, h).(kind := Free) == Merged(tile, h)
  {
    var r, m := tile[h], RightJoin(t1, h);
    Agree(tile, h, h);
    JoinedRight(tile, h, t1, r, End(r));
    if h > 0 {
      JoinedLeft(tile, h, t1, t2, m, h - 1);
    }
  }

  /** Joins only ever swallow free runs. */
  ghost predicate SameBusy(t: seq<Run>, t': seq<Run>) {
    |t| == |t'| && forall p :: 0 <= p < |t| ==> (t[p].kind == Busy <==> t'[p].kind == Busy)
  }

  lemma LimboAlone(tile: seq<Run>, h: nat)
    requires TileOK(tile) && NoLimbo(tile) && h < |tile| && tile[h].start == h
    ensures Flip(tile, h, Limbo)[h] == tile[h].(kind := Limbo)
    ensures LimboOnly(Flip(tile, h, Limbo), Flip(tile, h, Limbo)[h])
  {
    Agree(tile, h, h);
  }

  lemma RightJoinOK(tile: seq<Run>, h: nat)
    requires TileOK(tile) && h < |tile| && tile[h].start == h && tile[h].kind == Limbo && LimboOnly(tile, tile[h])
    ensures var m := RightJoin(tile, h);
      && m.start == h && m.kind == Limbo && m.len > 0
      && SetRun(tile, m)[h] == m && LimboOnly(SetRun(tile, m), m) && SameBusy(tile, SetRun(tile, m))
  {
    var m, e := RightJoin(tile, h), End(tile[h]);
    Agree(tile, h, h);
    RunBoundary(tile, h);
    forall p | 0 <= p < |tile| && InRun(m, p) ensures tile[p].kind != Busy {
      Agree(tile, h, p);
      if e < |tile| {
        Agree(tile, e, p);
      }
    }
  }

  lemma LeftJoinOK(tile: seq<Run>, h: nat)
    requires TileOK(tile) && h < |tile| && tile[h].start == h && tile[h].kind == Limbo && LimboOnly(tile, tile[h])
    ensures var m := LeftJoin(tile, h);
      && m.start <= h && m.kind == Limbo && m.len > 0
      && SetRun(tile, m)[m.start] == m && SameBusy(tile, SetRun(tile, m))
  {
    var m := LeftJoin(tile, h);
    Agree(tile, h, h);
    RunBoundary(tile, h);
    forall p | 0 <= p < |tile| && InRun(m, p) ensures tile[p].kind != Busy {
      Agree(tile, h, p);
      if h > 0 {
        Agree(tile, h - 1, h - 1);
        Agree(tile, h - 1, p);
      }
    }
  }
}
