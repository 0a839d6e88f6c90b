/** Resizing a block in place, and cutting an aligned block out of a larger one. */
module Resizing {
  import opened Words
  import opened Memory
  import opened Tiling
  import opened HeapState
  import opened HeapOps
  import opened Frames
  import opened Freeing
  import opened Segments
  import opened Limits

  function Min(a: int, b: int): int { if a < b then a else b }

  /** The block `p` has a new size and request, what fits of its contents is kept, and nobody else notices. */
  ghost predicate ResizedLive(m: Mem, live: map<int, Block>, m': Mem, live': map<int, Block>, p: int, req: int,
                              nb: int) {
    && p in live && p in live' && live'[p].req == req && nb <= live'[p].size < nb + MIN_CHUNK_SIZE
    && live' == live[p := live'[p]]
    && SamePayload(m, m', p, Min(live[p].size, live'[p].size))
    && Untouched(m, m', live - {p})
  }

  ghost predicate Resized(h: Heap, h': Heap, p: int, req: int, nb: int) {
    ResizedLive(h.m, LiveOf(h.cs), h'.m, LiveOf(h'.cs), p, req, nb)
  }

  /** Only these two words differ; both lie outside the first `size` bytes of the block at `p`. */
  ghost predicate EdgeWrites(m: Mem, m': Mem, p: int, size: int) {
    && m'.Keys == m.Keys
    && forall w :: w in m && m'[w] != m[w] ==> w < p + MEM_OFFSET || w >= p + size + WORD_BYTES
  }

  lemma PayloadTrans(m: Mem, m1: Mem, m2: Mem, p: int, size: int, s1: int, s2: int)
    requires SamePayload(m, m1, p, s1) && SamePayload(m1, m2, p, s2) && size <= s1 && size <= s2
    ensures SamePayload(m, m2, p, size)
  {
  }

  /** Putting a step together: a run that starts with `p` has become a block of `size` bytes. */
  lemma ResizedBy(h: Heap, h1: Heap, m2: Mem, live2: map<int, Block>, p: int, req: int, nb: int, size: int,
                  inside: set<int>)
    requires Good(h, {}) && p in h.cs && h.cs[p].kind.Live? && p in inside
    requires LiveOf(h1.cs) == LiveOf(h.cs) && Untouched(h.m, h1.m, LiveOf(h.cs))
    requires forall a :: a in inside && a != p ==> a in h.cs && !h.cs[a].kind.Live?
    requires live2 == (LiveOf(h1.cs) - inside)[p := Block(size, req)]
    requires Untouched(h1.m, m2, LiveOf(h1.cs) - inside)
    requires EdgeWrites(h1.m, m2, p, Min(h.cs[p].size, size)) && nb <= size < nb + MIN_CHUNK_SIZE
    ensures ResizedLive(h.m, LiveOf(h.cs), m2, live2, p, req, nb)
  {
    hide Good;
    var live := LiveOf(h.cs);
    assert live - inside == live - {p} by { OnlyP(h.cs, inside, p); }
    assert p in live && live[p].size == h.cs[p].size;
    PayloadHeld(h, {}, p);
    assert SamePayload(h.m, h1.m, p, h.cs[p].size);
    var s := Min(h.cs[p].size, size);
    assert Held(h1.m, p + MEM_OFFSET, p + s + WORD_BYTES) by { KeptHeld(h.m, h1.m, p, h.cs[p].size, s); }
    EdgePayload(h1.m, m2, p, s);
    PayloadTrans(h.m, h1.m, m2, p, s, h.cs[p].size, s);
    hide SamePayload, EdgeWrites, LiveOf;
    UntouchedFewer(h.m, h1.m, live, live - {p});
    UntouchedTrans(h.m, h1.m, m2, live - {p});
    assert (live - {p})[p := Block(size, req)] == live[p := Block(size, req)];
  }

  lemma OnlyP(cs: map<int, Chunk>, inside: set<int>, p: int)
    requires p in inside && forall a :: a in inside && a != p ==> a in cs && !cs[a].kind.Live?
    ensures LiveOf(cs) - inside == LiveOf(cs) - {p}
  {
    forall a | a in LiveOf(cs) && a != p
      ensures a !in inside
    {
    }
  }

  lemma KeptHeld(m: Mem, m1: Mem, p: int, size: int, s: int)
    requires SamePayload(m, m1, p, size) && s <= size
    ensures Held(m1, p + MEM_OFFSET, p + s + WORD_BYTES)
  {
  }

  lemma EdgePayload(m: Mem, m': Mem, p: int, size: int)
    requires EdgeWrites(m, m', p, size) && Held(m, p + MEM_OFFSET, p + size + WORD_BYTES)
    ensures SamePayload(m, m', p, size)
  {
  }

  lemma ResizedThen(m: Mem, live: map<int, Block>, m1: Mem, live1: map<int, Block>, m2: Mem, p: int, req: int, nb: int)
    requires ResizedLive(m, live, m1, live1, p, req, nb) && Untouched(m1, m2, live1)
    ensures ResizedLive(m, live, m2, live1, p, req, nb)
  {
    assert SamePayload(m1, m2, p, live1[p].size);
    var s := Min(live[p].size, live1[p].size);
    PayloadTrans(m, m1, m2, p, s, s, live1[p].size);
    hide SamePayload;
    UntouchedFewer(m1, m2, live1, live - {p});
    UntouchedTrans(m, m1, m2, live - {p});
  }

  // ---------- what a resize reads ----------

  /** The chunk behind a block: in use, top, the designated victim, or in a bin. */
  ghost predicate BehindBlock(h: Heap, p: int, n: int) {
    && p in h.cs && h.cs[p].kind.Live? && n == p + h.cs[p].size && n in h.cs
    && TagReads(h.m, p, h.cs[p]) && TagReads(h.m, n, h.cs[n])
    && (h.cs[n].kind.Top? <==> n == h.top)
    && (h.cs[n].kind.Free? <==> n in h.ix.sizes || (n == h.dv && h.dv != 0))
    && (n == h.top ==> h.cs[n].size == h.topsize && h.top != 0)
    && (n == h.dv ==> h.dv != 0 && h.cs[n].size == h.dvsize)
    && (n in h.ix.sizes ==> h.ix.sizes[n] == h.cs[n].size && n != h.dv)
    && !h.cs[n].kind.Foot?
    && p !in h.ix.sizes && p != h.dv && p != h.top
  }

  lemma ReadBehind(h: Heap, p: int)
    requires Good(h, {}) && p in h.cs && h.cs[p].kind.Live?
    ensures BehindBlock(h, p, p + h.cs[p].size)
  {
    hide Good, Size, Pinuse, Cinuse, InuseBits;
    var n := p + h.cs[p].size;
    ReadTags(h, {}, p);
    ReadNext(h, {}, p);
    ReadTags(h, {}, n);
    WhereFree(h, {}, p);
    WhereFree(h, {}, n);
    BinnedInCs(h, {});
  }

  // ---------- the cases ----------

  lemma BlockRun(h: Heap, holes: set<int>, p: int)
    requires Good(h, holes) && p in h.cs && h.cs[p].kind.Live?
    ensures RunOk(h, p, p + h.cs[p].size, {p}) && Held(h.m, p, p + h.cs[p].size + WORD_BYTES) && p != h.top
  {
    hide Good, RunOk;
    WhereFree(h, holes, p);
    RunOne(h, holes, p);
    PayloadHeld(h, holes, p);
  }

  /** The block stays as it is; only the request changes. */
  lemma KeepBlock(h: Heap, p: int, req: int, nb: int)
    requires Good(h, {}) && p in h.cs && h.cs[p].kind.Live? && Fits(req, nb) && nb <= h.cs[p].size < nb + MIN_CHUNK_SIZE
    ensures var h' := OneBlock(h, p, p + h.cs[p].size, req);
      Good(h', {}) && Resized(h, h', p, req, nb) && h'.m == h.m
  {
    hide Good, RunOk, Untouched, LiveOf, KindOk, ResizedLive, Retile;
    var hi := p + h.cs[p].size;
    BlockRun(h, {}, p);
    ReadBehind(h, p);
    FitsKind(req, nb, h.cs[p].size);
    UseRun(h, {}, p, hi, {p}, req);
    assert {} - {p} == {};
    UntouchedSelf(h, {});
    assert SetInuse(h.m, p, hi - p) == h.m by { hide BehindBlock; SameHeads(h, p); }
    hide BehindBlock;
    ResizedBy(h, h, h.m, LiveOf(OneBlock(h, p, hi, req).cs), p, req, nb, hi - p, {p});
  }

  lemma SameHeads(h: Heap, p: int)
    requires Good(h, {}) && p in h.cs && h.cs[p].kind.Live?
    ensures SetInuse(h.m, p, h.cs[p].size) == h.m
  {
    hide Good, Size, Pinuse, Cinuse, InuseBits, KindOk, PinOk;
    var n := p + h.cs[p].size;
    ReadNext(h, {}, p);
    HeadOf(h, {}, p);
    ReadTags(h, {}, n);
    ReadTags(h, {}, p);
    assert h.m[p + HEAD := h.m[p + HEAD]] == h.m && h.m[n + HEAD := h.m[n + HEAD]] == h.m;
  }

  /** The block gives up its end, which is a block of its own until it is freed. */
  lemma CutBlock(h: Heap, p: int, nb: int, req: int)
    requires Good(h, {}) && p in h.cs && h.cs[p].kind.Live? && Fits(req, nb) && nb + MIN_CHUNK_SIZE <= h.cs[p].size
    ensures var h2 := TwoBlocks(h, p, p + nb, p + h.cs[p].size, req, h.cs[p].size - nb - CHUNK_OVERHEAD);
      CutMade(h, h, h2, p, nb, req) && RestIs(h2, p + nb, h.cs[p].size - nb)
  {
    hide Good, RunOk, Untouched, LiveOf, KindOk, Retile, HeadWord, Pinuse, Cinuse, Size, InuseBits, SetInuse;
    var hi, rsize := p + h.cs[p].size, h.cs[p].size - nb;
    BlockRun(h, {}, p);
    ReadBehind(h, p);
    FitsKind(req, nb, nb);
    RestKind(rsize);
    CutRun(h, {}, p, p + nb, hi, {p}, req, rsize - CHUNK_OVERHEAD);
    assert {} - {p} == {};
    UntouchedSelf(h, {});
    TwoHeads(h.m, p, p + nb, hi);
    TwoBlocksChunks(h, p, p + nb, hi, req, rsize - CHUNK_OVERHEAD);
    NothingBetween(h, p, p + nb);
  }

  lemma RestKind(size: int)
    requires MIN_CHUNK_SIZE <= size && size % 16 == 0
    ensures KindOk(size, Live(size - CHUNK_OVERHEAD))
  {
  }

  /** A block was cut in two; the second part is about to be freed. */
  ghost predicate CutMade(h: Heap, h1: Heap, h2: Heap, p: int, nb: int, req: int) {
    var r := p + nb;
    && Good(h2, {}) && nb > 0 && r in h2.cs && h2.cs[r].kind.Live? && r !in LiveOf(h1.cs) && p in h.cs
    && LiveOf(h2.cs) == (LiveOf(h1.cs) - {p})[p := Block(nb, req)][r := Block(h2.cs[r].size, h2.cs[r].kind.req)]
    && Untouched(h1.m, h2.m, LiveOf(h1.cs) - {p}) && EdgeWrites(h1.m, h2.m, p, Min(h.cs[p].size, nb))
    && LiveOf(h1.cs) == LiveOf(h.cs) && Untouched(h.m, h1.m, LiveOf(h.cs))
  }

  /** The second part of a block that has been cut lies behind the first, which is in use. */
  lemma CutIsPinned(h: Heap, h1: Heap, h2: Heap, p: int, nb: int, req: int)
    requires CutMade(h, h1, h2, p, nb, req)
    ensures p + nb in h2.cs && h2.cs[p + nb].kind.Live? && h2.cs[p + nb].pin
  {
    hide Good, Untouched, EdgeWrites;
    assert p in LiveOf(h2.cs) && LiveOf(h2.cs)[p].size == nb;
    ReadNext(h2, {}, p);
  }

  ghost predicate RestIs(h: Heap, r: int, rsize: int) { r in h.cs && h.cs[r].size == rsize }

  lemma TwoHeads(m: Mem, p: int, mid: int, hi: int)
    requires p + HEAD in m && mid + HEAD in m && hi + HEAD in m && p < mid < hi
    ensures EdgeWrites(m, SetInuse(SetInuse(m, p, mid - p), mid, hi - mid), p, mid - p)
  {
  }

  lemma TwoBlocksChunks(h: Heap, lo: int, mid: int, hi: int, r1: int, r2: int)
    requires lo in h.cs && hi in h.cs && lo < mid < hi
    ensures var cs' := TwoBlocks(h, lo, mid, hi, r1, r2).cs;
      mid in cs' && cs'[mid].kind == Live(r2) && cs'[mid].size == hi - mid
  {
  }

  lemma NothingBetween(h: Heap, p: int, a: int)
    requires Good(h, {}) && p in h.cs && p < a < p + h.cs[p].size
    ensures a !in h.cs && a !in LiveOf(h.cs)
  {
    hide Good;
    if a in h.cs {
      GoodBeside(h, {}, p, a);
    }
  }

  /** The second part has been freed. */
  lemma CutResized(h: Heap, h1: Heap, h2: Heap, h3: Heap, p: int, nb: int, req: int)
    requires Good(h, {}) && h.cs == h1.cs && p in h.cs && h.cs[p].kind.Live? && CutMade(h, h1, h2, p, nb, req)
    requires Freed(h2, h3, p + nb)
    ensures Resized(h, h3, p, req, nb)
  {
    hide Good, LiveOf, Untouched, EdgeWrites, ResizedLive;
    var live2 := (LiveOf(h1.cs) - {p})[p := Block(nb, req)];
    var r := p + nb;
    assert r != p && r !in live2;
    assert LiveOf(h3.cs) == live2;
    ResizedBy(h, h1, h2.m, live2, p, req, nb, nb, {p});
    ResizedThen(h.m, LiveOf(h.cs), h2.m, live2, h3.m, p, req, nb);
  }

  // ---------- growing ----------

  /** A block and the free chunk behind it, which is in hand. */
  ghost predicate WithNext(h: Heap, p: int, n: int, hi: int) {
    && p in h.cs && h.cs[p].kind.Live? && n == p + h.cs[p].size
    && n in h.cs && h.cs[n].kind.Free? && hi == n + h.cs[n].size
    && RunOk(h, p, hi, {p, n}) && h.top !in {p, n} && hi in h.cs && Used(h.cs[hi].kind)
    && p % 16 == 0 && n % 16 == 0 && hi % 16 == 0 && p < n < hi && MIN_CHUNK_SIZE <= h.cs[p].size
  }

  lemma JoinNext(h: Heap, p: int, n: int)
    requires Good(h, {n}) && p in h.cs && h.cs[p].kind.Live? && n == p + h.cs[p].size && n in h.cs
    ensures WithNext(h, p, n, n + h.cs[n].size)
  {
    hide Good, RunOk, Size, Pinuse, Cinuse, InuseBits;
    var hi := n + h.cs[n].size;
    HoleRun(h, {n}, n);
    BlockRun(h, {n}, p);
    ReadTags(h, {n}, p);
    RunJoin(h, p, n, hi, {p}, {n});
    assert {p} + {n} == {p, n};
  }

  lemma Pieces(p: int, nb: int, hi: int)
    requires p % 16 == 0 && nb % 16 == 0 && hi % 16 == 0
    ensures (p + nb) % 16 == 0 && (hi - (p + nb)) % 16 == 0 && (hi - p) % 16 == 0
  {
  }

  /** All of the free chunk is taken. */
  lemma GrowWhole(h: Heap, h1: Heap, p: int, n: int, nb: int, req: int)
    requires Good(h, {}) && Good(h1, {n}) && h1.cs == h.cs && p in h.cs && h.cs[p].kind.Live? && n == p + h.cs[p].size
    requires n in h.cs && Untouched(h.m, h1.m, LiveOf(h.cs)) && Fits(req, nb)
    requires h.cs[p].size < nb <= n + h.cs[n].size - p < nb + MIN_CHUNK_SIZE
    ensures var hi := n + h.cs[n].size; var h' := OneBlock(h1, p, hi, req);
      Good(h', {}) && Resized(h, h', p, req, nb) && p + HEAD in h1.m && hi + HEAD in h1.m
  {
    hide Good, RunOk, Untouched, LiveOf, KindOk, Retile, HeadWord, Pinuse, Cinuse, Size, InuseBits, SetInuse,
         ResizedLive;
    var hi := n + h.cs[n].size;
    JoinNext(h1, p, n);
    FitsKind(req, nb, hi - p);
    UseRun(h1, {n}, p, hi, {p, n}, req);
    assert {n} - {p, n} == {};
    OneHead(h1.m, p, hi, h.cs[p].size);
    ResizedBy(h, h1, OneBlock(h1, p, hi, req).m, LiveOf(OneBlock(h1, p, hi, req).cs), p, req, nb, hi - p, {p, n});
  }

  lemma OneHead(m: Mem, p: int, hi: int, size: int)
    requires p + HEAD in m && hi + HEAD in m && p < p + size < hi
    ensures EdgeWrites(m, SetInuse(m, p, hi - p), p, size)
  {
  }

  /** The free chunk is split: its rest becomes a block that is freed next. */
  lemma GrowCut(h: Heap, h1: Heap, p: int, n: int, nb: int, req: int)
    requires Good(h, {}) && Good(h1, {n}) && h1.cs == h.cs && p in h.cs && h.cs[p].kind.Live? && n == p + h.cs[p].size
    requires n in h.cs && Untouched(h.m, h1.m, LiveOf(h.cs)) && Fits(req, nb)
    requires h.cs[p].size < nb && nb + MIN_CHUNK_SIZE <= n + h.cs[n].size - p
    ensures var hi := n + h.cs[n].size; var h2 := TwoBlocks(h1, p, p + nb, hi, req, hi - p - nb - CHUNK_OVERHEAD);
      CutMade(h, h1, h2, p, nb, req) && RestIs(h2, p + nb, hi - p - nb)
  {
    hide Good, RunOk, Untouched, LiveOf, KindOk, Retile, HeadWord, Pinuse, Cinuse, Size, InuseBits, SetInuse;
    var hi := n + h.cs[n].size;
    var rsize := hi - p - nb;
    JoinNext(h1, p, n);
    FitsPositive(req, nb);
    FitsKind(req, nb, nb);
    Pieces(p, nb, hi);
    hide Fits;
    RestKind(rsize);
    CutRun(h1, {n}, p, p + nb, hi, {p, n}, req, rsize - CHUNK_OVERHEAD);
    assert {n} - {p, n} == {};
    OnlyP(h1.cs, {p, n}, p);
    TwoHeads(h1.m, p, p + nb, hi);
    EdgeNearer(h1.m, TwoBlocks(h1, p, p + nb, hi, req, rsize - CHUNK_OVERHEAD).m, p, h.cs[p].size, nb);
    TwoBlocksChunks(h1, p, p + nb, hi, req, rsize - CHUNK_OVERHEAD);
    NothingInside(h1, n, p + nb);
  }

  lemma EdgeNearer(m: Mem, m': Mem, p: int, size: int, more: int)
    requires EdgeWrites(m, m', p, more) && size <= more
    ensures EdgeWrites(m, m', p, size)
  {
  }

  lemma NothingInside(h: Heap, n: int, a: int)
    requires Good(h, {n}) && n in h.cs && n < a < n + h.cs[n].size
    ensures a !in LiveOf(h.cs)
  {
    hide Good;
    if a in h.cs {
      GoodBeside(h, {n}, n, a);
    }
  }

  /** The designated victim gives up its front, lines 573-581. */
  function VictimShrunk(h: Heap, p: int, nb: int, req: int): Heap {
    var hi := h.dv + h.dvsize;
    BlockAndFree(NoVictim(h), p, p + nb, hi, req).(dv := p + nb, dvsize := hi - p - nb)
  }

  lemma GrowIntoVictim(h: Heap, p: int, nb: int, req: int)
    requires Good(h, {}) && p in h.cs && h.cs[p].kind.Live? && h.dv == p + h.cs[p].size && h.dv != 0 && Fits(req, nb)
    requires h.cs[p].size < nb && nb + MIN_CHUNK_SIZE <= h.cs[p].size + h.dvsize
    ensures var h', hi := VictimShrunk(h, p, nb, req), h.dv + h.dvsize;
      && Good(h', {}) && Resized(h, h', p, req, nb)
      && p + HEAD in h.m && p + nb + HEAD in h.m && hi in h.m && hi + HEAD in h.m
  {
    hide Good, RunOk, Untouched, LiveOf, KindOk, Retile, HeadWord, Pinuse, Cinuse, Size, InuseBits, SetInuse,
         ResizedLive, BlockAndFree;
    var n, hi, mid := h.dv, h.dv + h.dvsize, p + nb;
    VictimReads(h, {});
    VictimToHole(h, {});
    assert {} + {n} == {n};
    var h1 := NoVictim(h);
    UntouchedSelf(h, {});
    JoinNext(h1, p, n);
    FitsPositive(req, nb);
    FitsKind(req, nb, nb);
    Pieces(p, nb, hi);
    hide Fits;
    FreeKind(hi - mid);
    SplitRun(h1, {n}, p, mid, hi, {p, n}, req);
    assert {n} - {p, n} + {mid} == {mid} && {mid} - {mid} == {};
    BlockAndFreeFields(h1, p, mid, hi, req);
    HoleToVictim(BlockAndFree(h1, p, mid, hi, req), {mid}, mid);
    SplitEdges(h1, p, mid, hi, req, h.cs[p].size);
    ResizedBy(h, h1, BlockAndFree(h1, p, mid, hi, req).m, LiveOf(BlockAndFree(h1, p, mid, hi, req).cs), p, req, nb, nb,
              {p, n});
  }

  lemma SplitEdges(h: Heap, p: int, mid: int, hi: int, req: int, size: int)
    requires p + HEAD in h.m && mid + HEAD in h.m && hi + HEAD in h.m && hi in h.m && p < p + size < mid < hi
    requires p + size + WORD_BYTES <= mid
    ensures EdgeWrites(h.m, BlockAndFree(h, p, mid, hi, req).m, p, size)
  {
    hide Retile;
  }

  lemma GrowIntoTop(h: Heap, p: int, nb: int, req: int)
    requires Good(h, {}) && p in h.cs && h.cs[p].kind.Live? && h.top == p + h.cs[p].size && h.top != 0 && Fits(req, nb)
    requires h.cs[p].size < nb < h.cs[p].size + h.topsize
    ensures var hi := h.top + h.topsize; var h' := BlockAndTop(h, p, p + nb, hi, req);
      Good(h', {}) && Resized(h, h', p, req, nb) && p + HEAD in h.m && p + nb + HEAD in h.m
  {
    hide Good, RunOk, Untouched, LiveOf, KindOk, Retile, HeadWord, Pinuse, Cinuse, Size, InuseBits, SetInuse,
         ResizedLive;
    var hi, mid := h.top + h.topsize, p + nb;
    Tail(h, {});
    BlockRun(h, {}, p);
    ReadTags(h, {}, p);
    WhereFree(h, {}, h.top);
    RunOne(h, {}, h.top);
    RunJoin(h, p, h.top, hi, {p}, {h.top});
    FitsKind(req, nb, nb);
    SplitTop(h, {}, p, mid, hi, {p} + {h.top}, req);
    assert {} - ({p} + {h.top}) == {};
    UntouchedSelf(h, {});
    TopEdges(h.m, p, mid, hi, h.cs[p].size);
    ResizedBy(h, h, BlockAndTop(h, p, mid, hi, req).m, LiveOf(BlockAndTop(h, p, mid, hi, req).cs), p, req, nb, nb,
              {p} + {h.top});
  }

  lemma TopEdges(m: Mem, p: int, mid: int, hi: int, size: int)
    requires p + HEAD in m && mid + HEAD in m && p < p + size < mid
    ensures EdgeWrites(m, SetInuse(m, p, mid - p)[mid + HEAD := Head(hi - mid, true, false)], p, size)
  {
  }

  lemma CutMadeGood(h: Heap, h1: Heap, h2: Heap, p: int, nb: int, req: int)
    requires CutMade(h, h1, h2, p, nb, req)
    ensures Good(h2, {}) && p + nb in h2.cs && h2.cs[p + nb].kind.Live?
  {
    hide Good;
  }

  /** The writes of lines 575-579. */
  lemma VictimShrunkWrites(h: Heap, p: int, nb: int, req: int)
    requires p + HEAD in h.m && p + nb + HEAD in h.m && h.dv + h.dvsize in h.m && h.dv + h.dvsize + HEAD in h.m
    requires 0 < nb && p + nb + MIN_CHUNK_SIZE <= h.dv + h.dvsize
    ensures var hi, r := h.dv + h.dvsize, p + nb;
      var m1 := SetSizeAndPinuseOfFreeChunk(SetInuse(h.m, p, nb), r, hi - r);
      && VictimShrunk(h, p, nb, req).m == m1[hi + HEAD := ClearPinuse(At(m1, hi + HEAD))]
      && hi + HEAD in m1
  {
    hide Retile;
  }

  // ---------- realloc as a whole ----------

  /** The first `n` bytes of the payload at `q` are those that were at `p`. */
  ghost predicate SameBytes(m: Mem, p: int, m': Mem, q: int, n: int) {
    forall w :: p + MEM_OFFSET <= w < p + MEM_OFFSET + n ==> w in m && q + (w - p) in m' && m'[q + (w - p)] == m[w]
  }

  /** `p` has become the block `q` and the first `n` bytes of its contents are there. */
  ghost predicate Reallocated(h: Heap, h': Heap, p: int, q: int, req: int, nb: int, n: int) {
    && p in LiveOf(h.cs) && q in LiveOf(h'.cs) && (q == p || q !in LiveOf(h.cs))
    && LiveOf(h'.cs)[q].req == req && nb <= LiveOf(h'.cs)[q].size <= nb + MIN_CHUNK_SIZE
    && LiveOf(h'.cs) == (LiveOf(h.cs) - {p})[q := LiveOf(h'.cs)[q]]
    && SameBytes(h.m, p, h'.m, q, n)
    && Untouched(h.m, h'.m, LiveOf(h.cs) - {p})
  }

  /** How much of a block's contents a reallocation to `req` bytes keeps. */
  function Kept(live: map<int, Block>, p: int, req: int): int {
    if p in live then Min(live[p].size - CHUNK_OVERHEAD, req) else 0
  }

  lemma InPlace(h: Heap, h': Heap, p: int, req: int, nb: int)
    requires Resized(h, h', p, req, nb) && Fits(req, nb)
    ensures Reallocated(h, h', p, p, req, nb, Kept(LiveOf(h.cs), p, req))
  {
    hide LiveOf, Untouched;
    assert (LiveOf(h.cs) - {p})[p := LiveOf(h'.cs)[p]] == LiveOf(h.cs)[p := LiveOf(h'.cs)[p]];
    var size := Min(LiveOf(h.cs)[p].size, LiveOf(h'.cs)[p].size);
    forall w | p + MEM_OFFSET <= w < p + MEM_OFFSET + Min(LiveOf(h.cs)[p].size - CHUNK_OVERHEAD, req)
      ensures w in h.m && w in h'.m && h'.m[w] == h.m[w]
    {
      assert Payload(p, size, w);
    }
  }

  /** The cells `dst..dst + n` hold what the cells from `src` on held. */
  ghost predicate Copied(m: Mem, m': Mem, src: int, dst: int, n: int) {
    && m'.Keys == m.Keys
    && (forall w :: w in m && !(dst <= w < dst + n) ==> m'[w] == m[w])
    && (forall w :: src <= w < src + n ==> w in m && dst + (w - src) in m' && m'[dst + (w - src)] == m[w])
  }

  lemma CopyIsPayload(h: Heap, m': Mem, p: int, q: int, n: int)
    requires Good(h, {}) && q in h.cs && h.cs[q].kind.Live? && Copied(h.m, m', p + MEM_OFFSET, q + MEM_OFFSET, n)
    requires n + CHUNK_OVERHEAD <= h.cs[q].size
    ensures Good(h.(m := m'), {}) && Untouched(h.m, m', LiveOf(h.cs) - {q})
  {
    hide Good;
    assert PayloadWrites(h.m, m', q, h.cs[q].size);
    PayloadIsFree(h, m', {}, q);
  }

  lemma Moved(h0: Heap, h1: Heap, h2: Heap, h3: Heap, p: int, q: int, req: int, nb: int, n: int)
    requires p in LiveOf(h0.cs) && Obtained(h0, h1, q, req, nb)
    requires Copied(h1.m, h2.m, p + MEM_OFFSET, q + MEM_OFFSET, n)
    requires n + CHUNK_OVERHEAD <= LiveOf(h0.cs)[p].size && n + CHUNK_OVERHEAD <= LiveOf(h1.cs)[q].size
    requires h2.cs == h1.cs && Untouched(h1.m, h2.m, LiveOf(h1.cs) - {q}) && Freed(h2, h3, p)
    ensures Reallocated(h0, h3, p, q, req, nb, n)
  {
    hide LiveOf, SamePayload, Copied, SameBytes, Untouched;
    var live0, live1, live3 := LiveOf(h0.cs), LiveOf(h1.cs), LiveOf(h3.cs);
    assert live3 == (live0 - {p})[q := live1[q]];
    var size, size' := live0[p].size, live1[q].size;
    assert SamePayload(h0.m, h1.m, p, size) by { UntouchedAt(h0.m, h1.m, live0, p); }
    assert SamePayload(h2.m, h3.m, q, size') by { UntouchedAt(h2.m, h3.m, live3, q); }
    BytesMoved(h0.m, h1.m, h2.m, h3.m, p, q, size, size', n);
    UntouchedFewer(h0.m, h1.m, live0, live0 - {p});
    UntouchedFewer(h1.m, h2.m, live1 - {q}, live0 - {p});
    UntouchedFewer(h2.m, h3.m, live3, live0 - {p});
    UntouchedTrans(h0.m, h1.m, h2.m, live0 - {p});
    UntouchedTrans(h0.m, h2.m, h3.m, live0 - {p});
  }

  lemma UntouchedAt(m: Mem, m': Mem, live: map<int, Block>, a: int)
    requires Untouched(m, m', live) && a in live
    ensures SamePayload(m, m', a, live[a].size)
  {
    hide SamePayload;
  }

  lemma BytesMoved(m0: Mem, m1: Mem, m2: Mem, m3: Mem, p: int, q: int, size: int, size': int, n: int)
    requires SamePayload(m0, m1, p, size) && Copied(m1, m2, p + MEM_OFFSET, q + MEM_OFFSET, n)
    requires SamePayload(m2, m3, q, size')
    requires n + CHUNK_OVERHEAD <= size && n + CHUNK_OVERHEAD <= size'
    ensures SameBytes(m0, p, m3, q, n)
  {
    forall w | p + MEM_OFFSET <= w < p + MEM_OFFSET + n
      ensures w in m0 && q + (w - p) in m3 && m3[q + (w - p)] == m0[w]
    {
      assert Payload(p, size, w) && Payload(q, size', q + (w - p));
    }
  }

  /** The copy stays inside both blocks, which do not overlap. */
  lemma CopyRoom(h0: Heap, h1: Heap, p: int, q: int, req: int, nb: int)
    requires p in LiveOf(h0.cs) && Obtained(h0, h1, q, req, nb) && Good(h1, {})
    ensures p in h1.cs && h1.cs[p].kind.Live? && h1.cs[p].size == LiveOf(h0.cs)[p].size && TagReads(h1.m, p, h1.cs[p])
    ensures q in h1.cs && h1.cs[q].kind.Live? && p in LiveOf(h1.cs) && q in LiveOf(h1.cs)
    ensures LiveOf(h1.cs)[p] == LiveOf(h0.cs)[p]
    ensures h1.cs[q].size == LiveOf(h1.cs)[q].size && req + CHUNK_OVERHEAD <= h1.cs[q].size && req >= 0
    ensures MIN_CHUNK_SIZE <= h1.cs[p].size
    ensures NoOverlap(p, h1.cs[p].size, q, h1.cs[q].size)
    ensures Held(h1.m, p, p + h1.cs[p].size + WORD_BYTES) && Held(h1.m, q, q + h1.cs[q].size + WORD_BYTES)
  {
    hide Good, Untouched;
    assert p in LiveOf(h1.cs) && LiveOf(h1.cs)[p] == LiveOf(h0.cs)[p];
    assert p in h1.cs && q in h1.cs;
    ReadTags(h1, {}, p);
    ReadTags(h1, {}, q);
    HeadOf(h1, {}, q);
    PayloadHeld(h1, {}, p);
    PayloadHeld(h1, {}, q);
    GoodBeside(h1, {}, p, q);
  }

  predicate NoOverlap(p: int, size: int, q: int, size': int) { p + size <= q || q + size' <= p }

  // ---------- memalign ----------

  predicate AlignedTo(a: int, alignment: int) { alignment > 0 && a % alignment == 0 }

  /** A new block whose payload is aligned, with at most a minimum chunk to spare. */
  ghost predicate AlignedBlock(h: Heap, h': Heap, p: int, req: int, nb: int, alignment: int) {
    AlignedTo(p + MEM_OFFSET, alignment) && Obtained(h, h', p, req, nb)
  }

  /** A new block for a request, with at most a minimum chunk to spare. */
  ghost predicate Obtained(h: Heap, h': Heap, p: int, req: int, nb: int) {
    NewBlock(h, h', p) && LiveOf(h'.cs)[p].req == req && nb <= LiveOf(h'.cs)[p].size <= nb + MIN_CHUNK_SIZE
  }

  lemma AllocatedObtained(h: Heap, h': Heap, p: int, req: int, nb: int)
    requires Allocated(h, h', p, req, nb)
    ensures Obtained(h, h', p, req, nb)
  {
  }

  lemma ObtainedHasTop(h: Heap, h': Heap, p: int, req: int, nb: int)
    requires Obtained(h, h', p, req, nb) && Good(h', {})
    ensures h'.segs != []
  {
    hide Good, Untouched;
    ChunkHasTop(h', {}, p);
  }

  lemma LiveHasTop(h: Heap, p: int)
    requires Good(h, {}) && p in LiveOf(h.cs)
    ensures h.segs != []
  {
    hide Good;
    ChunkHasTop(h, {}, p);
  }

  /** What `malloc` returns is aligned to 16 bytes. */
  lemma AllocatedAligned(h: Heap, h': Heap, p: int, req: int, nb: int, alignment: int)
    requires Allocated(h, h', p, req, nb) && IsPowerOfTwo(alignment) && alignment <= MALLOC_ALIGNMENT
    ensures AlignedBlock(h, h', p, req, nb, alignment)
  {
    PowerFacts(alignment);
    hide IsPowerOfTwo, Untouched, LiveOf;
    SmallAlignment(p + MEM_OFFSET, alignment);
  }

  lemma SmallAlignment(a: int, k: int)
    requires a % 16 == 0 && (k == 1 || k == 2 || k == 4 || k == 8 || k == 16)
    ensures AlignedTo(a, k)
  {
    if k == 2 {
      assert a % 2 == 0;
    } else if k == 4 {
      assert a % 4 == 0;
    } else if k == 8 {
      assert a % 8 == 0;
    }
  }

  /** One more block than before, and no other block touched. */
  ghost predicate NewBlock(h: Heap, h': Heap, p: int) {
    && p in LiveOf(h'.cs) && p !in LiveOf(h.cs) && HEAP_START <= p
    && LiveOf(h'.cs) == LiveOf(h.cs)[p := LiveOf(h'.cs)[p]]
    && Untouched(h.m, h'.m, LiveOf(h.cs))
  }

  /** Where `memalign` puts the block, lines 676-682. */
  function AlignedPosition(p: int, alignment: int): int
    requires alignment > 0
  {
    var br := AlignUp(p + MEM_OFFSET, alignment) - MEM_OFFSET;
    if br - p > MIN_CHUNK_SIZE then br else br + alignment
  }

  /**
   The leader has room for a chunk, and what `malloc` was asked for in excess covers it, although the test for
   taking the first aligned spot is a strict one.
   */
  lemma AlignedRoom(p: int, alignment: int, nb: int, size: int)
    requires alignment >= MIN_CHUNK_SIZE && alignment % 16 == 0 && p % 16 == 0 && !AlignedTo(p + MEM_OFFSET, alignment)
    requires size >= Request2Size(nb + alignment + MIN_CHUNK_SIZE - CHUNK_OVERHEAD)
    requires nb >= MIN_CHUNK_SIZE && nb % 16 == 0
    ensures var pos := AlignedPosition(p, alignment); var lead := pos - p;
      && AlignedTo(pos + MEM_OFFSET, alignment) && lead % 16 == 0
      && MIN_CHUNK_SIZE < lead <= alignment + MIN_CHUNK_SIZE && size - lead >= nb
  {
    hide AlignUp, Request2Size, PadRequest, AlignedTo, AlignedPosition;
    AlignedSpot(p, alignment);
    RequestFits(nb + alignment + MIN_CHUNK_SIZE - CHUNK_OVERHEAD);
  }

  lemma AlignedSpot(p: int, alignment: int)
    requires alignment >= MIN_CHUNK_SIZE && alignment % 16 == 0 && p % 16 == 0 && !AlignedTo(p + MEM_OFFSET, alignment)
    ensures var pos := AlignedPosition(p, alignment); var lead := pos - p;
      AlignedTo(pos + MEM_OFFSET, alignment) && lead % 16 == 0 && MIN_CHUNK_SIZE < lead <= alignment + MIN_CHUNK_SIZE
  {
    hide AlignUp, AlignedTo;
    var up := AlignUp(p + MEM_OFFSET, alignment);
    UpIsAligned(p + MEM_OFFSET, alignment);
    MultipleOfMultiple(up, alignment);
    NextAligned(up, alignment);
    SpotArithmetic(p / 16, up / 16, alignment / 16);
  }

  /** Everything in units of 16 bytes. */
  lemma SpotArithmetic(a: int, b: int, c: int)
    requires c >= 2 && a + 1 < b < a + 1 + c
    ensures var br := 16 * b - 16; var pos := if br - 16 * a > MIN_CHUNK_SIZE then br else br + 16 * c;
      (pos - 16 * a) % 16 == 0 && MIN_CHUNK_SIZE < pos - 16 * a <= 16 * c + MIN_CHUNK_SIZE
  {
  }

  lemma UpIsAligned(a: int, alignment: int)
    requires alignment > 0
    ensures AlignedTo(AlignUp(a, alignment), alignment) && a <= AlignUp(a, alignment) < a + alignment
    ensures !AlignedTo(a, alignment) ==> a < AlignUp(a, alignment)
  {
    var x := a + alignment - 1;
    assert x == alignment * (x / alignment) + x % alignment;
    assert AlignUp(a, alignment) == alignment * (x / alignment);
    TimesMod(x / alignment, alignment);
  }

  lemma TimesMod(n: int, k: int)
    requires k > 0
    ensures k * n % k == 0
  {
    ModUnique(k * n, n, 0, k);
  }

  lemma ModUnique(x: int, q: int, r: int, k: int)
    requires k > 0 && x == k * q + r && 0 <= r < k
    ensures x % k == r
  {
    DivUnique(k, q, r, x / k, x % k);
  }

  lemma DivUnique(k: int, q: int, r: int, q': int, r': int)
    requires k > 0 && k * q + r == k * q' + r' && 0 <= r < k && 0 <= r' < k
    ensures r == r'
  {
    var d := q - q';
    assert k * d == k * q - k * q';
    if d >= 1 {
      TimesGrows(k, 1, d);
    } else if d <= -1 {
      TimesGrows(k, d, -1);
    }
  }

  lemma TimesGrows(k: int, a: int, b: int)
    requires k > 0 && a <= b
    ensures k * a <= k * b
  {
    assert k * (b - a) >= 0;
    assert k * b == k * a + k * (b - a);
  }

  lemma NextAligned(a: int, alignment: int)
    requires AlignedTo(a, alignment)
    ensures AlignedTo(a + alignment, alignment)
  {
    ModUnique(a + alignment, a / alignment + 1, 0, alignment);
  }

  lemma MultipleOfMultiple(a: int, k: int)
    requires k % 16 == 0 && AlignedTo(a, k)
    ensures a % 16 == 0
  {
    var q, j := a / k, k / 16;
    assert a == k * q && k == 16 * j;
    assert a == 16 * (j * q);
    TimesMod(j * q, 16);
  }

  // ---------- giving back the leader and the tail ----------

  /** The first `lead` bytes of a block as a block of their own. */
  function WithLeader(h: Heap, p: int, lead: int): Heap
    requires p in h.cs
  {
    var size := h.cs[p].size;
    TwoBlocks(h, p, p + lead, p + size, lead - CHUNK_OVERHEAD, size - lead - CHUNK_OVERHEAD)
  }

  /** The leader becomes a block of its own, to be freed; the rest keeps the alignment. */
  lemma CutLeader(h: Heap, p: int, lead: int)
    requires Good(h, {}) && p in h.cs && h.cs[p].kind.Live? && MIN_CHUNK_SIZE <= lead && lead % 16 == 0
    requires lead + MIN_CHUNK_SIZE <= h.cs[p].size
    ensures LeaderCut(h, WithLeader(h, p, lead), p, lead)
  {
    hide Good, RunOk, Untouched, LiveOf, KindOk, Retile, HeadWord, Pinuse, Cinuse, Size, InuseBits, SetInuse;
    var hi, mid, rest := p + h.cs[p].size, p + lead, h.cs[p].size - lead;
    BlockRun(h, {}, p);
    ReadBehind(h, p);
    Pieces(p, lead, hi);
    RestKind(lead);
    RestKind(rest);
    CutRun(h, {}, p, mid, hi, {p}, lead - CHUNK_OVERHEAD, rest - CHUNK_OVERHEAD);
    assert {} - {p} == {};
    NothingBetween(h, p, mid);
    LeaderChunks(h, p, mid, hi, lead - CHUNK_OVERHEAD, rest - CHUNK_OVERHEAD);
    LeaderWrites(h.m, p, mid, hi);
  }

  ghost predicate LeaderCut(h: Heap, h': Heap, p: int, lead: int) {
    p in h.cs &&
    var q, size := p + lead, h.cs[p].size - lead;
    && Good(h', {}) && q != p && q !in LiveOf(h.cs) && q in h'.cs && h'.cs[q].kind.Live? && h'.cs[q].size == size
    && p in h'.cs && h'.cs[p].kind.Live? && h'.cs[p].size == lead
    && LiveOf(h'.cs)
         == (LiveOf(h.cs) - {p})[p := Block(lead, lead - CHUNK_OVERHEAD)][q := Block(size, size - CHUNK_OVERHEAD)]
    && Untouched(h.m, h'.m, LiveOf(h.cs) - {p})
    && p + HEAD in h.m && q + HEAD in h.m && q + size + HEAD in h.m
    && h'.m == SetInuse(SetInuse(h.m, q, size), p, lead)
  }

  lemma LeaderChunks(h: Heap, lo: int, mid: int, hi: int, r1: int, r2: int)
    requires lo in h.cs && hi in h.cs && lo < mid < hi
    ensures var cs' := TwoBlocks(h, lo, mid, hi, r1, r2).cs;
      && lo in cs' && cs'[lo].kind == Live(r1) && cs'[lo].size == mid - lo
      && mid in cs' && cs'[mid].kind == Live(r2) && cs'[mid].size == hi - mid
  {
  }

  /** `memalign` writes the two heads in the other order; whatever the payload held there does not matter. */
  lemma LeaderWrites(m: Mem, p: int, mid: int, hi: int)
    requires p + HEAD in m && mid + HEAD in m && hi + HEAD in m && p < mid < hi && (hi - mid) % 16 == 0
    ensures SetInuse(SetInuse(m, p, mid - p), mid, hi - mid) == SetInuse(SetInuse(m, mid, hi - mid), p, mid - p)
  {
    var m1 := SetInuse(m, mid, hi - mid);
    HeadRoundTrip(hi - mid, Pinuse(m[mid + HEAD]), true);
    assert SetPinuse(m1[mid + HEAD]) == Head(hi - mid, true, true);
    assert Pinuse(SetPinuse(m[mid + HEAD])) by { PinuseIsSet(m[mid + HEAD]); }
    hide Pinuse, SetPinuse, Head;
  }

  lemma PinuseIsSet(head: int)
    ensures Pinuse(SetPinuse(head))
  {
  }

  /** Once the leader is freed, the rest is one new block. */
  lemma LeaderFreed(h0: Heap, h: Heap, h1: Heap, h2: Heap, p: int, lead: int)
    requires NewBlock(h0, h, p) && LeaderCut(h, h1, p, lead) && Freed(h1, h2, p) && Good(h0, {}) && lead > 0
    ensures NewBlock(h0, h2, p + lead)
  {
    var live0, live, live1, live2 := LiveOf(h0.cs), LiveOf(h.cs), LiveOf(h1.cs), LiveOf(h2.cs);
    hide LiveOf, Good, Untouched;
    var q := p + lead;
    assert live2 == live0[q := live2[q]];
    UntouchedFewer(h.m, h1.m, live - {p}, live0);
    UntouchedFewer(h1.m, h2.m, live2, live0);
    UntouchedTrans(h0.m, h.m, h1.m, live0);
    UntouchedTrans(h0.m, h1.m, h2.m, live0);
  }

  /** The block keeps its size; only the request changes. */
  lemma Relabel(h0: Heap, h: Heap, p: int, req: int)
    requires Good(h, {}) && NewBlock(h0, h, p) && p in h.cs && h.cs[p].kind.Live? && KindOk(h.cs[p].size, Live(req))
    ensures var h' := OneBlock(h, p, p + h.cs[p].size, req);
      && Good(h', {}) && NewBlock(h0, h', p) && h'.m == h.m
      && LiveOf(h'.cs)[p] == Block(h.cs[p].size, req)
  {
    hide Good, RunOk, Untouched, LiveOf, KindOk, Retile;
    var hi := p + h.cs[p].size;
    BlockRun(h, {}, p);
    ReadBehind(h, p);
    UseRun(h, {}, p, hi, {p}, req);
    assert {} - {p} == {};
    SameHeads(h, p);
    assert LiveOf(OneBlock(h, p, hi, req).cs) == LiveOf(h0.cs)[p := Block(hi - p, req)];
  }

  /** Trimming the tail in place leaves one new block. */
  lemma TailTrimmed(h0: Heap, h: Heap, h1: Heap, p: int, req: int, nb: int)
    requires NewBlock(h0, h, p) && Resized(h, h1, p, req, nb)
    ensures NewBlock(h0, h1, p) && LiveOf(h1.cs)[p].req == req && nb <= LiveOf(h1.cs)[p].size < nb + MIN_CHUNK_SIZE
  {
    var live0, live, live1 := LiveOf(h0.cs), LiveOf(h.cs), LiveOf(h1.cs);
    hide LiveOf, Untouched;
    assert live1 == live0[p := live1[p]];
    UntouchedFewer(h.m, h1.m, live - {p}, live0);
    UntouchedTrans(h0.m, h.m, h1.m, live0);
  }

  // ---------- glue ----------

  lemma FreshBlock(h0: Heap, h: Heap, p: int, req: int, nb: int)
    requires Allocated(h0, h, p, req, nb)
    ensures NewBlock(h0, h, p) && p % 16 == 0 && LiveOf(h.cs)[p].size >= nb
  {
    hide LiveOf, Untouched;
  }

  lemma NewBlockPlace(h0: Heap, h: Heap, p: int)
    requires NewBlock(h0, h, p)
    ensures p >= HEAP_START
  {
    hide LiveOf, Untouched;
  }

  lemma AlignedIs(h0: Heap, h: Heap, p: int, req: int, nb: int, alignment: int)
    requires NewBlock(h0, h, p) && AlignedTo(p + MEM_OFFSET, alignment) && LiveOf(h.cs)[p].req == req
    requires nb <= LiveOf(h.cs)[p].size <= nb + MIN_CHUNK_SIZE
    ensures AlignedBlock(h0, h, p, req, nb, alignment)
  {
    hide LiveOf, Untouched, NewBlock, AlignedTo;
  }

  lemma LeaderFacts(h: Heap, p: int, lead: int)
    requires p in h.cs
    requires LeaderCut(h, WithLeader(h, p, lead), p, lead)
    ensures var h1 := WithLeader(h, p, lead);
      && Good(h1, {}) && p in h1.cs && h1.cs[p].kind.Live? && h1.cs[p].size == lead
      && h1.m == SetInuse(SetInuse(h.m, p + lead, h.cs[p].size - lead), p, lead)
  {
    hide Good, LiveOf, Untouched, TwoBlocks, SetInuse;
  }

  lemma LeaderRest(h: Heap, h1: Heap, h2: Heap, p: int, lead: int)
    requires p in h.cs && LeaderCut(h, h1, p, lead) && Freed(h1, h2, p)
    ensures p + lead in LiveOf(h2.cs) && LiveOf(h2.cs)[p + lead].size == h.cs[p].size - lead
  {
    hide Good, LiveOf, Untouched, SetInuse;
  }

  lemma AlignedToAsked(a: int, alignment: int, asked: int)
    requires IsPowerOfTwo(asked) && alignment == (if asked < MIN_CHUNK_SIZE then MIN_CHUNK_SIZE else asked)
    requires AlignedTo(a, alignment)
    ensures AlignedTo(a, asked)
  {
    PowerFacts(asked);
    AlignedFor(a, alignment, asked);
  }

  // ---------- the interface ----------

  /** The size of a live block is within the slack that `validate_size` allows for its last request. */
  lemma SlackOfLive(h: Heap, p: int)
    requires Good(h, {}) && p in LiveOf(h.cs)
    ensures LiveOf(h.cs)[p].req >= 0
    ensures LiveOf(h.cs)[p].req + CHUNK_OVERHEAD <= LiveOf(h.cs)[p].size <= LiveOf(h.cs)[p].req + MAX_OVERHEAD
  {
    hide Good;
    HeadOf(h, {}, p);
  }

  lemma LivePlace(h: Heap, p: int)
    requires Good(h, {}) && p in LiveOf(h.cs)
    ensures p >= HEAP_START && LiveOf(h.cs)[p].req >= 0 && LiveOf(h.cs)[p].req + CHUNK_OVERHEAD <= LiveOf(h.cs)[p].size
  {
    hide Good;
    ReadTags(h, {}, p);
    SlackOfLive(h, p);
  }

  lemma AlignedObtained(h: Heap, h': Heap, p: int, req: int, nb: int, alignment: int)
    requires AlignedBlock(h, h', p, req, nb, alignment)
    ensures Obtained(h, h', p, req, nb) && AlignedTo(p + MEM_OFFSET, alignment) && p in LiveOf(h'.cs)
  {
  }

  lemma ObtainedRoom(h: Heap, h': Heap, p: int, req: int, nb: int)
    requires Obtained(h, h', p, req, nb) && Good(h', {})
    ensures p in LiveOf(h'.cs) && req + CHUNK_OVERHEAD <= LiveOf(h'.cs)[p].size && req >= 0
    ensures Held(h'.m, p + MEM_OFFSET, p + MEM_OFFSET + req)
  {
    hide Good, Untouched;
    SlackOfLive(h', p);
    PayloadHeld(h', {}, p);
  }

  ghost predicate Zeroed(m: Mem, m': Mem, ptr: int, n: int) {
    && m'.Keys == m.Keys
    && (forall w :: w in m && !(ptr <= w < ptr + n) ==> m'[w] == m[w])
    && (forall w :: ptr <= w < ptr + n ==> w in m' && m'[w] == 0)
  }

  /** Clearing a new block changes nothing for anyone else. */
  lemma ZerosArePayload(h: Heap, h1: Heap, m': Mem, p: int, req: int, nb: int, alignment: int)
    requires AlignedBlock(h, h1, p, req, nb, alignment) && Good(h1, {}) && Zeroed(h1.m, m', p + MEM_OFFSET, req)
    ensures Good(h1.(m := m'), {}) && AlignedBlock(h, h1.(m := m'), p, req, nb, alignment)
  {
    hide Good, Untouched;
    SlackOfLive(h1, p);
    LiveIs(h1, p);
    assert PayloadWrites(h1.m, m', p, h1.cs[p].size);
    hide Zeroed;
    PayloadIsFree(h1, m', {}, p);
    hide PayloadWrites;
    UntouchedFewer(h1.m, m', LiveOf(h1.cs) - {p}, LiveOf(h.cs));
    UntouchedTrans(h.m, h1.m, m', LiveOf(h.cs));
  }
}
