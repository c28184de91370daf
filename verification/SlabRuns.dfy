/** Any run of requests to the allocator, as its callers see it. */
module SlabRuns {
  import opened SlabLists
  import opened SlabTiles
  import opened SlabPages
  import opened SlabChunks
  import opened SlabPool

  /** A caller asks for so many bytes, or gives back an address. */
  datatype Op = Get(size: nat) | Give(addr: nat)

  /** The live blocks are just those handed out and not given back, and each is large
      enough for what was asked. */
  ghost predicate Accounts(ps: seq<Page>, mem: seq<seq<bool>>, n: nat, tile: seq<Run>, held: map<nat, nat>)
    requires n <= |ps| && |mem| == |tile| == n
  {
    && (forall a: nat {:trigger BlockAt(ps, mem, n, tile, a)} :: BlockAt(ps, mem, n, tile, a) > 0 ==> a in held)
    && (forall a: nat {:trigger a in held} :: a in held ==> Serves(held[a], BlockAt(ps, mem, n, tile, a)))
  }

  ghost predicate Serves(size: nat, block: nat) { block > 0 && Fits(size, block) }

  lemma FitsServes(size: nat, block: nat)
    requires Fits(size, block)
    ensures Serves(size, block)
  {
  }

  lemma GainedAccounts(ps: seq<Page>, mem: seq<seq<bool>>, tile: seq<Run>, qs: seq<Page>, nem: seq<seq<bool>>,
      uile: seq<Run>, n: nat, addr: nat, size: nat, held: map<nat, nat>)
    requires n <= |ps| && |mem| == |tile| == n && n <= |qs| && |nem| == |uile| == n
    requires Accounts(ps, mem, n, tile, held)
    requires Gained(ps, mem, tile, qs, nem, uile, n, addr, BlockAt(qs, nem, n, uile, addr))
    requires Serves(size, BlockAt(qs, nem, n, uile, addr))
    ensures Accounts(qs, nem, n, uile, held[addr := size])
  {
    forall a: nat | a != addr ensures BlockAt(qs, nem, n, uile, a) == BlockAt(ps, mem, n, tile, a) {
    }
  }

  lemma LostAccounts(ps: seq<Page>, mem: seq<seq<bool>>, tile: seq<Run>, qs: seq<Page>, nem: seq<seq<bool>>,
      uile: seq<Run>, n: nat, addr: nat, held: map<nat, nat>)
    requires n <= |ps| && |mem| == |tile| == n && n <= |qs| && |nem| == |uile| == n
    requires Accounts(ps, mem, n, tile, held) && Lost(ps, mem, tile, qs, nem, uile, n, addr)
    ensures Accounts(qs, nem, n, uile, held - {addr})
  {
    forall a: nat | a != addr ensures BlockAt(qs, nem, n, uile, a) == BlockAt(ps, mem, n, tile, a) {
    }
  }

  /** The address of a live block is none of those that the allocator takes by mistake. */
  lemma LiveIsNoticed(ps: seq<Page>, mem: seq<seq<bool>>, n: nat, tile: seq<Run>, addr: nat)
    requires n <= |ps| && |mem| == |tile| == n && BlockAt(ps, mem, n, tile, addr) > 0
    ensures addr / PAGE_SIZE < n && !Unnoticed(ps, mem, n, tile, addr)
  {
  }

  /** Nothing held touches the bitmap in page p, which is one of small chunks. */
  ghost predicate OffBitmap(page: Page, p: nat, held: map<nat, nat>) {
    && MIN_SHIFT <= page.slab < EXACT_SHIFT
    && forall a :: a in held ==> a + held[a] <= p * PAGE_SIZE || a >= p * PAGE_SIZE + BitmapBytes(page.slab)
  }

  lemma SmallClass(ps: seq<Page>, mem: seq<seq<bool>>, n: nat, own: seq<int>, p: nat)
    requires ChunksOK(ps, mem, n, own) && p < n && ps[p].tag == SmallTag
    ensures MIN_SHIFT <= ps[p].slab < EXACT_SHIFT
  {
    assert ChunkPageOK(ps[p].tag, ViewOf(ps[p], mem[p]), own[p]);
  }

  /** What callers hold lies in the pool, apart from each other and from the bitmaps of
      pages of small chunks. */
  lemma HeldApart(ps: seq<Page>, mem: seq<seq<bool>>, n: nat, tile: seq<Run>, ls: seq<seq<nat>>, own: seq<int>,
      held: map<nat, nat>)
    requires SlabOK(ps, mem, n, tile, ls, own) && Accounts(ps, mem, n, tile, held)
    ensures forall a :: a in held ==> a + held[a] <= n * PAGE_SIZE
    ensures forall a, b :: a in held && b in held && a < b ==> a + held[a] <= b
    ensures forall p :: 0 <= p < n && ps[p].tag == SmallTag ==> OffBitmap(ps[p], p, held)
  {
    forall a | a in held ensures a + held[a] <= n * PAGE_SIZE {
      BlockInside(ps, mem, n, tile, ls, own, a);
    }
    forall a, b | a in held && b in held && a < b ensures a + held[a] <= b {
      BlocksDisjoint(ps, mem, n, tile, ls, own, a, b);
    }
    forall p | 0 <= p < n && ps[p].tag == SmallTag ensures OffBitmap(ps[p], p, held) {
      SmallClass(ps, mem, n, own, p);
      forall a | a in held ensures a + held[a] <= p * PAGE_SIZE || a >= p * PAGE_SIZE + BitmapBytes(ps[p].slab) {
        BitmapSafe(ps, mem, n, tile, ls, own, a, p);
      }
    }
  }

  // ---------- requests and answers ----------

  /** An address, or NULL; what the allocator reports on giving back; and the caller who
      keeps quiet because the address is not his. */
  datatype Answer = Got(addr: nat) | NoMemory | Reported(result: FreeResult) | NotHeld

  function Entered(held: map<nat, nat>, op: Op, answer: Answer): (now: map<nat, nat>) {
    match (op, answer)
    case (Get(size), Got(addr)) => held[addr := size]
    case (Give(addr), Reported(Freed)) => held - {addr}
    case _ => held
  }

  /** The pool at one moment. */
  datatype Moment = Moment(pages: seq<Page>, mem: seq<seq<bool>>, tile: seq<Run>, ls: seq<seq<nat>>, own: seq<int>,
                           reserved: int)

  ghost function Now(pool: Pool): Moment
    reads pool, pool.pages, pool.mem
  {
    Moment(pool.pages[..], pool.mem[..], pool.tile, pool.ls, pool.own, pool.reserved)
  }

  /** The pool is in order, free runs are coalesced, the count of reserved pages is right,
      and what is live is what is held. */
  ghost predicate Sound(s: Moment, n: nat, held: map<nat, nat>) {
    && SlabOK(s.pages, s.mem, n, s.tile, s.ls, s.own)
    && Coalesced(s.tile) && s.reserved == |Reserved(s.tile)|
    && Accounts(s.pages, s.mem, n, s.tile, held)
  }

  /** How a request is to be answered when callers hold just this.  NULL is the answer only
      when nothing that would do is left; an address is not one that is held, and its block
      fits the request; giving back what is held is reported as freed, and frees it. */
  ghost predicate Answered(s: Moment, t: Moment, n: nat, held: map<nat, nat>, op: Op, answer: Answer) {
    && Sound(s, n, held) && Sound(t, n, Entered(held, op, answer))
    && match op
       case Get(size) =>
         if answer == NoMemory then
           && Exhausted(s.pages, s.mem, n, s.tile, size)
           && forall a: nat :: BlockAt(t.pages, t.mem, n, t.tile, a) == BlockAt(s.pages, s.mem, n, s.tile, a)
         else
           && answer.Got? && answer.addr !in held && Fits(size, BlockAt(t.pages, t.mem, n, t.tile, answer.addr))
           && Gained(s.pages, s.mem, s.tile, t.pages, t.mem, t.tile, n, answer.addr,
                     BlockAt(t.pages, t.mem, n, t.tile, answer.addr))
       case Give(addr) =>
         if addr in held then answer == Reported(Freed) && Lost(s.pages, s.mem, s.tile, t.pages, t.mem, t.tile, n, addr)
         else answer == NotHeld && t == s
  }

  method ServeGet(pool: Pool, size: nat, ghost held: map<nat, nat>) returns (answer: Answer)
    requires pool.Slab() && Sound(Now(pool), pool.n, held)
    modifies pool, pool.pages, pool.mem
    ensures pool.Slab() && Answered(old(Now(pool)), Now(pool), pool.n, held, Get(size), answer)
  {
    ghost var s := Now(pool);
    var addr := pool.Alloc(size);
    ghost var t := Now(pool);
    if addr >= 0 {
      FitsServes(size, pool.Block(addr));
      GainedAccounts(s.pages, s.mem, s.tile, t.pages, t.mem, t.tile, pool.n, addr, size, held);
      answer := Got(addr);
    } else {
      Unchanged(s.pages, s.mem, s.tile, t.pages, t.mem, t.tile, pool.n, held);
      answer := NoMemory;
    }
  }

  method ServeGive(pool: Pool, addr: nat, end: nat, held: map<nat, nat>) returns (answer: Answer)
    requires pool.Slab() && pool.n * PAGE_SIZE <= end && Sound(Now(pool), pool.n, held)
    modifies pool, pool.pages, pool.mem
    ensures pool.Slab() && Answered(old(Now(pool)), Now(pool), pool.n, held, Give(addr), answer)
  {
    if addr !in held {
      return NotHeld;
    }
    ghost var s := Now(pool);
    var r := GiveBack(pool, addr, end);
    ghost var t := Now(pool);
    LostAccounts(s.pages, s.mem, s.tile, t.pages, t.mem, t.tile, pool.n, addr, held);
    answer := Reported(r);
  }

  method GiveBack(pool: Pool, addr: nat, end: nat) returns (r: FreeResult)
    requires pool.Slab() && pool.n * PAGE_SIZE <= end && pool.Block(addr) > 0
    modifies pool, pool.pages, pool.mem
    ensures pool.Slab() && r == Freed
    ensures Lost(old(pool.pages[..]), old(pool.mem[..]), old(pool.tile), pool.pages[..], pool.mem[..], pool.tile,
                 pool.n, addr)
  {
    LiveIsNoticed(pool.pages[..], pool.mem[..], pool.n, pool.tile, addr);
    r := pool.FreeBlock(addr, end);
  }

  method ServeOne(pool: Pool, op: Op, end: nat, held: map<nat, nat>) returns (answer: Answer)
    requires pool.Slab() && pool.n * PAGE_SIZE <= end && Sound(Now(pool), pool.n, held)
    modifies pool, pool.pages, pool.mem
    ensures pool.Slab() && Answered(old(Now(pool)), Now(pool), pool.n, held, op, answer)
  {
    match op
    case Get(size) => answer := ServeGet(pool, size, held);
    case Give(addr) => answer := ServeGive(pool, addr, end, held);
  }

  lemma Unchanged(ps: seq<Page>, mem: seq<seq<bool>>, tile: seq<Run>, qs: seq<Page>, nem: seq<seq<bool>>,
      uile: seq<Run>, n: nat, held: map<nat, nat>)
    requires n <= |ps| && |mem| == |tile| == n && n <= |qs| && |nem| == |uile| == n
    requires Accounts(ps, mem, n, tile, held)
    requires forall a: nat :: BlockAt(qs, nem, n, uile, a) == BlockAt(ps, mem, n, tile, a)
    ensures Accounts(qs, nem, n, uile, held)
  {
  }

  /** What has come to pass: a pool at first, and then requests, each with its answer and
      the pool after it. */
  datatype History = Begin(now: Moment) | Then(before: History, op: Op, answer: Answer, now: Moment)

  function First(h: History): Moment { if h.Begin? then h.now else First(h.before) }
  function Ops(h: History): (ops: seq<Op>) { if h.Begin? then [] else Ops(h.before) + [h.op] }
  function Answers(h: History): (answers: seq<Answer>) { if h.Begin? then [] else Answers(h.before) + [h.answer] }

  /** What callers hold, by their requests and the answers they had: each address with the
      size asked for. */
  function Ledger(h: History): (held: map<nat, nat>) {
    if h.Begin? then map[] else Entered(Ledger(h.before), h.op, h.answer)
  }

  /** A run: each request is answered as it should be, and at each moment the live blocks
      are just what the answers so far say is held. */
  ghost predicate IsRun(h: History, n: nat) {
    match h
    case Begin(s) => Sound(s, n, map[])
    case Then(before, op, answer, t) =>
      IsRun(before, n) && Answered(before.now, t, n, Ledger(before), op, answer)
  }

  lemma RunIsSound(h: History, n: nat)
    requires IsRun(h, n)
    ensures Sound(h.now, n, Ledger(h))
  {
  }

  /** Any requests at all, of any sizes, where callers give back only what they hold: every
      one is answered as it should be, and at each moment what the answers say is held is
      what is live. */
  method Serve(pool: Pool, ops: seq<Op>, end: nat) returns (answers: seq<Answer>, ghost h: History)
    requires pool.Slab() && pool.n * PAGE_SIZE <= end
    requires forall a: nat :: BlockAt(pool.pages[..], pool.mem[..], pool.n, pool.tile, a) == 0
    modifies pool, pool.pages, pool.mem
    ensures pool.Slab() && IsRun(h, pool.n) && First(h) == old(Now(pool)) && h.now == Now(pool)
    ensures Ops(h) == ops && Answers(h) == answers
  {
    h := Begin(Now(pool));
    answers := [];
    var held: map<nat, nat> := map[];
    for i := 0 to |ops|
      invariant pool.Slab() && Reached(h, pool.n, ops, i, answers, held, old(Now(pool)), Now(pool))
    {
      answers, held, h := ServeNext(pool, ops, i, end, answers, held, h, old(Now(pool)));
    }
    assert ops[..|ops|] == ops;
  }

  /** Where a run has got to after k requests. */
  ghost predicate Reached(h: History, n: nat, ops: seq<Op>, k: nat, answers: seq<Answer>, held: map<nat, nat>,
      first: Moment, s: Moment)
  {
    && IsRun(h, n) && First(h) == first && h.now == s
    && k <= |ops| && Ops(h) == ops[..k] && Answers(h) == answers && Ledger(h) == held
  }

  method ServeNext(pool: Pool, ops: seq<Op>, i: nat, end: nat, answers: seq<Answer>, held: map<nat, nat>,
      ghost h: History, ghost first: Moment)
    returns (more: seq<Answer>, now: map<nat, nat>, ghost next: History)
    requires pool.Slab() && pool.n * PAGE_SIZE <= end && i < |ops|
    requires Reached(h, pool.n, ops, i, answers, held, first, Now(pool))
    modifies pool, pool.pages, pool.mem
    ensures pool.Slab() && Reached(next, pool.n, ops, i + 1, more, now, first, Now(pool))
  {
    ghost var s := Now(pool);
    RunIsSound(h, pool.n);
    var answer := ServeOne(pool, ops[i], end, held);
    next := OneMore(h, pool.n, ops[i], held, s, answer, Now(pool));
    FrontGrows(ops, i);
    more, now := answers + [answer], Entered(held, ops[i], answer);
  }

  lemma FrontGrows(ops: seq<Op>, i: nat)
    requires i < |ops|
    ensures ops[..i + 1] == ops[..i] + [ops[i]]
  {
  }

  lemma OneMore(h: History, n: nat, op: Op, held: map<nat, nat>, s: Moment, answer: Answer, t: Moment)
      returns (next: History)
    requires IsRun(h, n) && h.now == s && Ledger(h) == held && Answered(s, t, n, held, op, answer)
    ensures next == Then(h, op, answer, t) && IsRun(next, n)
  {
    next := Then(h, op, answer, t);
  }

  lemma SoundApart(s: Moment, n: nat, held: map<nat, nat>)
    requires Sound(s, n, held)
    ensures forall a: nat {:trigger a in held} :: a in held <==> BlockAt(s.pages, s.mem, n, s.tile, a) > 0
    ensures forall a :: a in held ==> a + held[a] <= n * PAGE_SIZE
    ensures forall a, b :: a in held && b in held && a < b ==> a + held[a] <= b
    ensures forall p :: 0 <= p < n && s.pages[p].tag == SmallTag ==> OffBitmap(s.pages[p], p, held)
  {
    HeldApart(s.pages, s.mem, n, s.tile, s.ls, s.own, held);
  }

  /** One of the moments of a history, with what led to it. */
  predicate Passes(h: History, g: History) { g == h || (h.Then? && Passes(h.before, g)) }

  lemma {:induction false} PassesRun(h: History, g: History, n: nat)
    requires IsRun(h, n) && Passes(h, g)
    ensures IsRun(g, n)
  {
    if g != h { PassesRun(h.before, g, n); }
  }

  /** At every moment of a run, what callers hold by their answers is live, at least as large
      as was asked, in the pool, apart from each other and from the bitmaps of pages of small
      chunks; nothing else is live; no two free runs touch; and the count of reserved pages
      is that of the pages outside free runs. */
  lemma AlwaysApart(h: History, g: History, n: nat, held: map<nat, nat>, s: Moment)
    requires IsRun(h, n) && Passes(h, g) && held == Ledger(g) && s == g.now
    ensures Sound(s, n, held) && Coalesced(s.tile) && s.reserved == |Reserved(s.tile)|
    ensures forall a: nat {:trigger a in held} :: a in held <==> BlockAt(s.pages, s.mem, n, s.tile, a) > 0
    ensures forall a :: a in held ==>
      Serves(held[a], BlockAt(s.pages, s.mem, n, s.tile, a)) && a + held[a] <= n * PAGE_SIZE
    ensures forall a, b :: a in held && b in held && a < b ==> a + held[a] <= b
    ensures forall p :: 0 <= p < n && s.pages[p].tag == SmallTag ==> OffBitmap(s.pages[p], p, held)
  {
    PassesRun(h, g, n);
    RunIsSound(g, n);
    SoundApart(s, n, held);
  }
}
