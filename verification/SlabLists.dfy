/** The intrusive lists of the shared-memory allocator.

    A pool of `n` pages has `n` page descriptors.  The sentinels of its lists are
    descriptors too, so a link is always an index: 0..n-1 are pages, n is the free
    list's sentinel (`pool->free`) and n+1+k is the sentinel of size class k
    (`slots[k]`).  A descriptor's `prev` word carries the page type in its low two
    bits; here the pointer and the type are the fields `prev` and `tag`, always
    written together.  The word `slab` is kept in two fields, the number in it (a
    run length, or a chunk shift) and the bitmap in it; the page type says which
    of the two the code reads. */
module SlabLists {

  const NULL: int := -1
  const LISTS: nat := 10

  datatype Tag = PageTag | BigTag | ExactTag | SmallTag

  datatype Page = Page(slab: nat, bits: seq<bool>, next: int, prev: int, tag: Tag)

  /** The type of the pages on list j: list 0 is the free list, list k+1 is size class k. */
  function ListTag(j: nat): Tag {
    if j == 0 then PageTag
    else if j <= 3 then SmallTag
    else if j == 4 then ExactTag
    else BigTag
  }

  /** The circular list from sentinel s visits exactly the nodes l, in order, and
      the links back agree.  The back link of the sentinel itself is never read. */
  ghost predicate Chain(ps: seq<Page>, s: nat, l: seq<nat>)
    requires s < |ps|
    requires forall i :: 0 <= i < |l| ==> l[i] < |ps|
  {
    && ps[s].next == (if l == [] then s else l[0])
    && forall i :: 0 <= i < |l| ==> ps[l[i]].next == After(s, l, i) && ps[l[i]].prev == Before(s, l, i)
  }

  function After(s: nat, l: seq<nat>, i: nat): nat
    requires i < |l|
  {
    if i + 1 < |l| then l[i + 1] else s
  }

  function Before(s: nat, l: seq<nat>, i: nat): nat
    requires i < |l|
  {
    if i > 0 then l[i - 1] else s
  }

  ghost predicate Distinct(l: seq<nat>) {
    forall i, j :: 0 <= i < j < |l| ==> l[i] != l[j]
  }

  /** List j of the pool: nodes are pages, none twice, all of the list's type. */
  ghost predicate ListOK(ps: seq<Page>, n: nat, j: nat, l: seq<nat>)
    requires j < LISTS && |ps| == n + LISTS
  {
    && (forall i :: 0 <= i < |l| ==> l[i] < n && ps[l[i]].tag == ListTag(j))
    && Distinct(l)
    && Chain(ps, n + j, l)
  }

  /** `own[p]` is the list that page p is on, or -1. */
  ghost predicate OwnOK(n: nat, ls: seq<seq<nat>>, own: seq<int>) {
    && |ls| == LISTS && |own| == n
    && (forall p :: 0 <= p < n ==> -1 <= own[p] < LISTS)
    && (forall j, p :: 0 <= j < LISTS && 0 <= p < n ==> (p in ls[j] <==> own[p] == j))
  }

  ghost predicate ListsOK(ps: seq<Page>, n: nat, ls: seq<seq<nat>>, own: seq<int>) {
    && |ps| == n + LISTS
    && OwnOK(n, ls, own)
    && (forall j :: 0 <= j < LISTS ==> ListOK(ps, n, j, ls[j]))
  }

  /** A list keeps its shape when none of its nodes is written. */
  lemma ListFrame(ps: seq<Page>, r: seq<Page>, n: nat, j: nat, l: seq<nat>)
    requires j < LISTS && |ps| == |r| == n + LISTS && ListOK(ps, n, j, l)
    requires forall q :: q in l ==> r[q] == ps[q]
    requires r[n + j].next == ps[n + j].next
    ensures ListOK(r, n, j, l)
  {
    assert forall k :: 0 <= k < |l| ==> l[k] in l;
  }

  // ---------- removal ----------

  function RemoveAt(l: seq<nat>, i: nat): (r: seq<nat>)
    requires i < |l|
  {
    l[..i] + l[i + 1..]
  }

  /** Both link writes that take p out of its list. */
  function Unlink(ps: seq<Page>, p: nat): (r: seq<Page>)
    requires p < |ps| && 0 <= ps[p].prev < |ps| && 0 <= ps[p].next < |ps|
  {
    var ps1 := ps[ps[p].prev := ps[ps[p].prev].(next := ps[p].next)];
    ps1[ps1[p].next := ps1[ps1[p].next].(prev := ps1[p].prev, tag := ps1[p].tag)]
  }

  lemma IndexOf(l: seq<nat>, p: nat) returns (i: nat)
    requires p in l
    ensures i < |l| && l[i] == p
  {
    i :| i < |l| && l[i] == p;
  }

  lemma RemoveAtOK(l: seq<nat>, i: nat)
    requires i < |l| && Distinct(l)
    ensures Distinct(RemoveAt(l, i))
    ensures forall q :: q in RemoveAt(l, i) <==> q in l && q != l[i]
  {
    var m := RemoveAt(l, i);
    assert forall k :: 0 <= k < |m| ==> m[k] == l[if k < i then k else k + 1];
    forall q | q in l && q != l[i] ensures q in m {
      var k := IndexOf(l, q);
      assert m[if k < i then k else k - 1] == q;
    }
  }

  /** What the two link writes change, field by field. */
  lemma UnlinkFields(ps: seq<Page>, p: nat, q: nat)
    requires p < |ps| && 0 <= ps[p].prev < |ps| && 0 <= ps[p].next < |ps| && ps[p].prev != p
    requires q < |ps|
    ensures |Unlink(ps, p)| == |ps|
    ensures var r := Unlink(ps, p);
            r[q] == ps[q].(next := if q == ps[p].prev then ps[p].next else ps[q].next,
                           prev := if q == ps[p].next then ps[p].prev else ps[q].prev,
                           tag := if q == ps[p].next then ps[p].tag else ps[q].tag)
  {}

  lemma UnlinkChain(ps: seq<Page>, s: nat, l: seq<nat>, i: nat)
    requires s < |ps| && forall k :: 0 <= k < |l| ==> l[k] < |ps| && l[k] != s
    requires Distinct(l) && Chain(ps, s, l) && i < |l|
    ensures ps[l[i]].prev == Before(s, l, i) && ps[l[i]].next == After(s, l, i)
    ensures forall k :: 0 <= k < |RemoveAt(l, i)| ==> RemoveAt(l, i)[k] < |ps|
    ensures Chain(Unlink(ps, l[i]), s, RemoveAt(l, i))
  {
    var m, r := RemoveAt(l, i), Unlink(ps, l[i]);
    UnlinkFields(ps, l[i], s);
    forall k | 0 <= k < |m|
      ensures m[k] < |ps| && r[m[k]].next == After(s, m, k) && r[m[k]].prev == Before(s, m, k)
    {
      UnlinkNode(ps, s, l, i, k);
    }
  }

  lemma UnlinkNode(ps: seq<Page>, s: nat, l: seq<nat>, i: nat, k: nat)
    requires s < |ps| && forall k :: 0 <= k < |l| ==> l[k] < |ps| && l[k] != s
    requires Distinct(l) && Chain(ps, s, l) && i < |l| && k < |l| - 1
    ensures ps[l[i]].prev == Before(s, l, i) && ps[l[i]].next == After(s, l, i)
    ensures var m, r := RemoveAt(l, i), Unlink(ps, l[i]);
            m[k] < |ps| && r[m[k]].next == After(s, m, k) && r[m[k]].prev == Before(s, m, k)
  {
    var k' := if k < i then k else k + 1;
    var p, q := l[i], l[k'];
    assert ps[p].prev == Before(s, l, i) && ps[p].next == After(s, l, i);
    assert ps[q].prev == Before(s, l, k') && ps[q].next == After(s, l, k');
    assert (q == ps[p].prev <==> k' + 1 == i) && (q == ps[p].next <==> k' == i + 1);
    UnlinkFields(ps, p, q);
    RemovedNeighbours(s, l, i, k, k');
  }

  lemma RemovedNeighbours(s: nat, l: seq<nat>, i: nat, k: nat, k': nat)
    requires i < |l| && k < |l| - 1 && k' == if k < i then k else k + 1
    ensures var m := RemoveAt(l, i);
      && m[k] == l[k']
      && After(s, m, k) == (if k' + 1 == i then After(s, l, i) else After(s, l, k'))
      && Before(s, m, k) == (if k' == i + 1 then Before(s, l, i) else Before(s, l, k'))
  {
  }

  /** Only list j may have been written: its nodes before and after, and its sentinel. */
  ghost predicate OnlyList(ps: seq<Page>, r: seq<Page>, n: nat, j: nat, l: seq<nat>, m: seq<nat>)
    requires |ps| == |r| == n + LISTS && j < LISTS
  {
    && (forall q :: 0 <= q < n && q !in l && q !in m ==> r[q] == ps[q])
    && (forall q :: n <= q < n + LISTS && q != n + j ==> r[q] == ps[q])
  }

  /** Rewriting one list, in the lists and in the ownership map, keeps them all. */
  lemma ListsRewrite(ps: seq<Page>, r: seq<Page>, n: nat, ls: seq<seq<nat>>, own: seq<int>,
                     j: nat, m: seq<nat>, own': seq<int>)
    requires ListsOK(ps, n, ls, own) && j < LISTS && |r| == |ps|
    requires OwnOK(n, ls[j := m], own')
    requires ListOK(r, n, j, m) && OnlyList(ps, r, n, j, ls[j], m)
    ensures ListsOK(r, n, ls[j := m], own')
  {
    forall k | 0 <= k < LISTS && k != j ensures ListOK(r, n, k, ls[k]) {
      ListsApart(ps, r, n, ls, own, j, m, own', k);
      ListFrame(ps, r, n, k, ls[k]);
    }
  }

  lemma ListsApart(ps: seq<Page>, r: seq<Page>, n: nat, ls: seq<seq<nat>>, own: seq<int>,
                   j: nat, m: seq<nat>, own': seq<int>, k: nat)
    requires ListsOK(ps, n, ls, own) && j < LISTS && |r| == |ps|
    requires OwnOK(n, ls[j := m], own') && OnlyList(ps, r, n, j, ls[j], m)
    requires k < LISTS && k != j
    ensures ListOK(ps, n, k, ls[k])
    ensures forall q :: q in ls[k] ==> r[q] == ps[q]
    ensures r[n + k].next == ps[n + k].next
  {
    assert ListOK(ps, n, k, ls[k]);
    forall q | q in ls[k] ensures r[q] == ps[q] {
      assert q < n && own[q] == k;
      assert ls[j := m][k] == ls[k];
      assert own'[q] == k;
      assert q !in ls[j] && q !in ls[j := m][j];
    }
  }

  ghost predicate SameWords(ps: seq<Page>, r: seq<Page>, n: nat)
    requires |ps| == |r| == n + LISTS
  {
    forall q :: 0 <= q < n ==> r[q].slab == ps[q].slab && r[q].bits == ps[q].bits && r[q].tag == ps[q].tag
  }

  /** What unlinking l[i] leaves alone at descriptor q. */
  lemma UnlinkLocal(ps: seq<Page>, n: nat, j: nat, l: seq<nat>, i: nat, q: nat)
    requires j < LISTS && |ps| == n + LISTS && ListOK(ps, n, j, l) && i < |l| && q < n + LISTS
    ensures ps[l[i]].prev == Before(n + j, l, i) && ps[l[i]].next == After(n + j, l, i)
    ensures var r := Unlink(ps, l[i]);
            && (q < n ==> r[q].slab == ps[q].slab && r[q].bits == ps[q].bits && r[q].tag == ps[q].tag)
            && (q == l[i] || (q < n && q !in l) || (q >= n && q != n + j) ==> r[q] == ps[q])
  {
    var p := l[i];
    assert ps[p].next == After(n + j, l, i) && ps[p].prev == Before(n + j, l, i);
    UnlinkFields(ps, p, q);
  }

  lemma UnlinkFrame(ps: seq<Page>, n: nat, j: nat, l: seq<nat>, i: nat)
    requires j < LISTS && |ps| == n + LISTS && ListOK(ps, n, j, l) && i < |l|
    ensures ps[l[i]].prev == Before(n + j, l, i) && ps[l[i]].next == After(n + j, l, i)
    ensures var r := Unlink(ps, l[i]);
            OnlyList(ps, r, n, j, l, RemoveAt(l, i)) && SameWords(ps, r, n) && r[l[i]] == ps[l[i]]
  {
    UnlinkLocal(ps, n, j, l, i, l[i]);
    var r := Unlink(ps, l[i]);
    forall q | 0 <= q < n
      ensures r[q].slab == ps[q].slab && r[q].bits == ps[q].bits && r[q].tag == ps[q].tag
      ensures q !in l ==> r[q] == ps[q]
    {
      UnlinkLocal(ps, n, j, l, i, q);
    }
    forall q | n <= q < n + LISTS && q != n + j ensures r[q] == ps[q] {
      UnlinkLocal(ps, n, j, l, i, q);
    }
  }

  lemma UnlinkTag(ps: seq<Page>, n: nat, j: nat, l: seq<nat>, i: nat, k: nat, q: nat)
    requires j < LISTS && |ps| == n + LISTS && ListOK(ps, n, j, l) && i < |l|
    requires k < |l| - 1 && q == RemoveAt(l, i)[k]
    ensures ps[l[i]].prev == Before(n + j, l, i) && ps[l[i]].next == After(n + j, l, i)
    ensures q < n && Unlink(ps, l[i])[q].tag == ListTag(j)
  {
    RemovedNeighbours(n + j, l, i, k, if k < i then k else k + 1);
    UnlinkLocal(ps, n, j, l, i, q);
  }

  lemma ListUnlink(ps: seq<Page>, n: nat, j: nat, l: seq<nat>, i: nat)
    requires j < LISTS && |ps| == n + LISTS && ListOK(ps, n, j, l) && i < |l|
    ensures ps[l[i]].prev == Before(n + j, l, i) && ps[l[i]].next == After(n + j, l, i)
    ensures ListOK(Unlink(ps, l[i]), n, j, RemoveAt(l, i))
  {
    UnlinkChain(ps, n + j, l, i);
    RemoveAtOK(l, i);
    var m, r := RemoveAt(l, i), Unlink(ps, l[i]);
    forall k | 0 <= k < |m| ensures m[k] < n && r[m[k]].tag == ListTag(j) {
      UnlinkTag(ps, n, j, l, i, k, m[k]);
    }
  }

  lemma OwnRemove(n: nat, ls: seq<seq<nat>>, own: seq<int>, p: nat, i: nat)
    requires OwnOK(n, ls, own) && p < n && own[p] >= 0
    requires Distinct(ls[own[p]]) && i < |ls[own[p]]| && ls[own[p]][i] == p
    ensures OwnOK(n, ls[own[p] := RemoveAt(ls[own[p]], i)], own[p := -1])
  {
    RemoveAtOK(ls[own[p]], i);
  }

  lemma ListsUnlink(ps: seq<Page>, n: nat, ls: seq<seq<nat>>, own: seq<int>, p: nat, i: nat)
    requires ListsOK(ps, n, ls, own) && p < n && own[p] >= 0
    requires i < |ls[own[p]]| && ls[own[p]][i] == p
    ensures 0 <= ps[p].prev < |ps| && 0 <= ps[p].next < |ps|
    ensures var r := Unlink(ps, p);
            && ListsOK(r, n, ls[own[p] := RemoveAt(ls[own[p]], i)], own[p := -1])
            && OnlyList(ps, r, n, own[p], ls[own[p]], []) && SameWords(ps, r, n) && r[p] == ps[p]
  {
    var j := own[p];
    assert ListOK(ps, n, j, ls[j]);
    OwnRemove(n, ls, own, p, i);
    ListUnlink(ps, n, j, ls[j], i);
    UnlinkFrame(ps, n, j, ls[j], i);
    ListsRewrite(ps, Unlink(ps, p), n, ls, own, j, RemoveAt(ls[j], i), own[p := -1]);
  }

  // ---------- insertion at the front ----------

  /** r is ps with p linked in between list j's sentinel and its first node. */
  ghost predicate PushedFront(ps: seq<Page>, r: seq<Page>, n: nat, j: nat, l: seq<nat>, p: nat)
    requires j < LISTS && |ps| == |r| == n + LISTS && p < n
    requires forall k :: 0 <= k < |l| ==> l[k] < n
  {
    && r[n + j].next == p
    && r[p].next == ps[n + j].next && r[p].prev == n + j && r[p].tag == ListTag(j)
    && (forall q :: 0 <= q < n && q in l ==>
          && r[q].next == ps[q].next && r[q].tag == ps[q].tag
          && r[q].prev == if q == l[0] then p else ps[q].prev)
  }

  lemma ListPush(ps: seq<Page>, r: seq<Page>, n: nat, j: nat, l: seq<nat>, p: nat)
    requires j < LISTS && |ps| == |r| == n + LISTS && p < n && p !in l
    requires ListOK(ps, n, j, l) && PushedFront(ps, r, n, j, l, p)
    ensures ListOK(r, n, j, [p] + l)
  {
    var m := [p] + l;
    forall k | 0 <= k < |m|
      ensures m[k] < n && r[m[k]].tag == ListTag(j)
      ensures r[m[k]].next == After(n + j, m, k) && r[m[k]].prev == Before(n + j, m, k)
    {
      if k == 0 {
        PushHead(ps, r, n, j, l, p, m);
      } else {
        PushNode(ps, r, n, j, l, p, m, k - 1, k);
      }
    }
    PushDistinct(l, p, m);
  }

  lemma PushDistinct(l: seq<nat>, p: nat, m: seq<nat>)
    requires Distinct(l) && p !in l && m == [p] + l
    ensures Distinct(m)
  {
    assert forall k :: 0 < k < |m| ==> m[k] == l[k - 1];
  }

  lemma PushHead(ps: seq<Page>, r: seq<Page>, n: nat, j: nat, l: seq<nat>, p: nat, m: seq<nat>)
    requires j < LISTS && |ps| == |r| == n + LISTS && p < n && m == [p] + l
    requires ListOK(ps, n, j, l) && PushedFront(ps, r, n, j, l, p)
    ensures m[0] == p && r[p].tag == ListTag(j)
    ensures r[p].next == After(n + j, m, 0) && r[p].prev == Before(n + j, m, 0)
  {
    assert l != [] ==> m[1] == l[0];
  }

  /** Node x of the old list is node k of the new one. */
  lemma PushNode(ps: seq<Page>, r: seq<Page>, n: nat, j: nat, l: seq<nat>, p: nat, m: seq<nat>, x: nat, k: nat)
    requires j < LISTS && |ps| == |r| == n + LISTS && p < n && m == [p] + l && x < |l| && k == x + 1
    requires ListOK(ps, n, j, l) && PushedFront(ps, r, n, j, l, p)
    ensures m[k] < n && r[m[k]].tag == ListTag(j)
    ensures r[m[k]].next == After(n + j, m, k) && r[m[k]].prev == Before(n + j, m, k)
  {
    var q := l[x];
    assert m[k] == q && q in l && (q == l[0] <==> x == 0);
    assert ps[q].next == After(n + j, l, x) && ps[q].prev == Before(n + j, l, x);
    assert x + 1 < |l| ==> m[k + 1] == l[x + 1];
    assert m[k - 1] == if x == 0 then p else l[x - 1];
  }

  lemma OwnAdd(n: nat, ls: seq<seq<nat>>, own: seq<int>, j: nat, p: nat)
    requires OwnOK(n, ls, own) && j < LISTS && p < n && own[p] == -1
    ensures p !in ls[j] && OwnOK(n, ls[j := [p] + ls[j]], own[p := j])
  {
    assert forall q :: q in [p] + ls[j] <==> q == p || q in ls[j];
  }

  lemma ListsPush(ps: seq<Page>, r: seq<Page>, n: nat, ls: seq<seq<nat>>, own: seq<int>, j: nat, p: nat)
    requires ListsOK(ps, n, ls, own) && j < LISTS && |r| == |ps| && p < n && own[p] == -1
    requires ListOK(ps, n, j, ls[j]) && PushedFront(ps, r, n, j, ls[j], p)
    requires OnlyList(ps, r, n, j, ls[j], [p])
    ensures ListsOK(r, n, ls[j := [p] + ls[j]], own[p := j])
  {
    OwnAdd(n, ls, own, j, p);
    ListPush(ps, r, n, j, ls[j], p);
    ListsRewrite(ps, r, n, ls, own, j, [p] + ls[j], own[p := j]);
  }

  // ---------- replacement in place ----------

  function ReplaceAt(l: seq<nat>, i: nat, y: nat): (r: seq<nat>)
    requires i < |l|
  {
    l[i := y]
  }

  /** r is ps with y linked in at the place of x. */
  ghost predicate Replaced(ps: seq<Page>, r: seq<Page>, n: nat, j: nat, l: seq<nat>, x: nat, y: nat)
    requires j < LISTS && |ps| == |r| == n + LISTS && x < n && y < n
    requires forall k :: 0 <= k < |l| ==> l[k] < n
  {
    && r[n + j].next == (if ps[n + j].next == x then y else ps[n + j].next)
    && r[y].next == ps[x].next && r[y].prev == ps[x].prev && r[y].tag == ListTag(j)
    && (forall q :: 0 <= q < n && q in l && q != x ==>
          && r[q].next == (if ps[q].next == x then y else ps[q].next)
          && r[q].prev == (if ps[q].prev == x then y else ps[q].prev)
          && r[q].tag == ps[q].tag)
  }

  lemma ListReplaceNode(ps: seq<Page>, r: seq<Page>, n: nat, j: nat, l: seq<nat>, i: nat, y: nat, k: nat)
    requires j < LISTS && |ps| == |r| == n + LISTS && y < n && y !in l && i < |l| && k < |l|
    requires ListOK(ps, n, j, l) && Replaced(ps, r, n, j, l, l[i], y)
    ensures var m := ReplaceAt(l, i, y);
            && m[k] < n && r[m[k]].tag == ListTag(j)
            && r[m[k]].next == After(n + j, m, k) && r[m[k]].prev == Before(n + j, m, k)
  {
    assert l[k] in l && ps[l[k]].next == After(n + j, l, k) && ps[l[k]].prev == Before(n + j, l, k);
  }

  lemma ListReplaceHead(ps: seq<Page>, r: seq<Page>, n: nat, j: nat, l: seq<nat>, i: nat, y: nat)
    requires j < LISTS && |ps| == |r| == n + LISTS && y < n && y !in l && i < |l|
    requires ListOK(ps, n, j, l) && Replaced(ps, r, n, j, l, l[i], y)
    ensures r[n + j].next == ReplaceAt(l, i, y)[0]
    ensures Distinct(ReplaceAt(l, i, y))
  {
    assert forall k :: 0 <= k < |l| ==> l[k] in l;
  }

  lemma ListReplace(ps: seq<Page>, r: seq<Page>, n: nat, j: nat, l: seq<nat>, i: nat, y: nat)
    requires j < LISTS && |ps| == |r| == n + LISTS && y < n && y !in l && i < |l|
    requires ListOK(ps, n, j, l) && Replaced(ps, r, n, j, l, l[i], y)
    ensures ListOK(r, n, j, ReplaceAt(l, i, y))
  {
    var m := ReplaceAt(l, i, y);
    ListReplaceHead(ps, r, n, j, l, i, y);
    forall k | 0 <= k < |m|
      ensures m[k] < n && r[m[k]].tag == ListTag(j)
      ensures r[m[k]].next == After(n + j, m, k) && r[m[k]].prev == Before(n + j, m, k)
    {
      ListReplaceNode(ps, r, n, j, l, i, y, k);
    }
  }

  lemma OwnReplace(n: nat, ls: seq<seq<nat>>, own: seq<int>, j: nat, i: nat, y: nat)
    requires OwnOK(n, ls, own) && j < LISTS && i < |ls[j]| && Distinct(ls[j])
    requires ls[j][i] < n && y < n && own[y] == -1
    ensures y !in ls[j] && OwnOK(n, ls[j := ReplaceAt(ls[j], i, y)], own[ls[j][i] := -1][y := j])
  {
    var l := ls[j];
    var m := ReplaceAt(l, i, y);
    assert y !in l;
    forall q ensures q in m <==> q == y || (q in l && q != l[i]) {
      if q in l && q != l[i] {
        var k := IndexOf(l, q);
        assert m[k] == q;
      }
      if q == y { assert m[i] == y; }
      if q in m && q != y {
        var k := IndexOf(m, q);
        assert k != i && l[k] == q;
      }
    }
    assert own[l[i]] == j;
  }

  lemma ListsReplace(ps: seq<Page>, r: seq<Page>, n: nat, ls: seq<seq<nat>>, own: seq<int>, j: nat, i: nat, y: nat)
    requires ListsOK(ps, n, ls, own) && j < LISTS && |r| == |ps| && y < n && own[y] == -1
    requires ListOK(ps, n, j, ls[j]) && i < |ls[j]| && Replaced(ps, r, n, j, ls[j], ls[j][i], y)
    requires OnlyList(ps, r, n, j, ls[j], [y])
    ensures ListsOK(r, n, ls[j := ReplaceAt(ls[j], i, y)], own[ls[j][i] := -1][y := j])
  {
    OwnReplace(n, ls, own, j, i, y);
    ListReplace(ps, r, n, j, ls[j], i, y);
    var m := ReplaceAt(ls[j], i, y);
    assert y in m by { assert m[i] == y; }
    ListsRewrite(ps, r, n, ls, own, j, m, own[ls[j][i] := -1][y := j]);
  }

  /** Slab words, and pages that are on no list, may change freely. */
  lemma ListsOffFrame(ps: seq<Page>, r: seq<Page>, n: nat, ls: seq<seq<nat>>, own: seq<int>)
    requires ListsOK(ps, n, ls, own) && |r| == |ps|
    requires forall q :: 0 <= q < n && own[q] != -1 ==>
      r[q].next == ps[q].next && r[q].prev == ps[q].prev && r[q].tag == ps[q].tag
    requires forall q :: n <= q < n + LISTS ==> r[q].next == ps[q].next
    ensures ListsOK(r, n, ls, own)
  {
    forall j | 0 <= j < LISTS ensures ListOK(r, n, j, ls[j]) {
      var l := ls[j];
      assert ListOK(ps, n, j, l);
      forall k | 0 <= k < |l|
        ensures r[l[k]].next == ps[l[k]].next && r[l[k]].prev == ps[l[k]].prev && r[l[k]].tag == ps[l[k]].tag
      {
        assert l[k] in l && own[l[k]] == j;
      }
    }
  }
}
