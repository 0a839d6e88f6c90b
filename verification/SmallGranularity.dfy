/**
 What the release pass meets at granularities below 512 bytes: for each of them a run of three calls that ends in a heap
 on which the pass would treat a chunk of a small bin as a node of a tree.
 */
module SmallGranularity {
  import opened Words
  import opened Memory
  import opened Tiling
  import opened HeapState
  import opened HeapOps
  import opened Freeing
  import opened Segments
  import opened NewSegments
  import opened Releasing
  import opened Resizing
  import opened Limits
  import opened Canonical
  import opened Policy
  import opened Traffic
  import opened Accounts
  import opened Allocator

  /** The first region the system is asked for at granularity `g`: that for a request of no bytes. */
  function FirstRegionSize(g: int): int
    requires g > 0
  {
    AlignUp(Request2Size(0) + SYS_PADDING, g)
  }

  /** A request that the whole of that region's top is just too small for. */
  function SecondRequest(g: int): int
    requires g > 0
  {
    FirstRegionSize(g) - TOP_FOOT_SIZE - CHUNK_OVERHEAD
  }

  function SecondRegionSize(g: int): int
    requires g > 0
  {
    AlignUp(Request2Size(SecondRequest(g)) + SYS_PADDING, g)
  }

  lemma Sizes(g: int)
    requires LegalGranularity(g) && g < MIN_REGION
    ensures FirstRegionSize(g) == (if g == 256 then 256 else 128)
    ensures var nb := FirstRegionSize(g) - TOP_FOOT_SIZE;
      && Request2Size(0) == MIN_CHUNK_SIZE && Request2Size(SecondRequest(g)) == nb && Fits(SecondRequest(g), nb)
      && SecondRegionSize(g) % 16 == 0 && nb + SYS_PADDING <= SecondRegionSize(g) <= 512
  {
    SmallUnits(g);
    hide LegalGranularity, AlignUp, Outstanding, Peak;
    if g == 16 {
      SizesFrom(16, 8, 3, 9);
    } else if g == 32 {
      SizesFrom(32, 4, 3, 5);
    } else if g == 64 {
      SizesFrom(64, 2, 3, 3);
    } else if g == 128 {
      SizesFrom(128, 1, 3, 2);
    } else {
      SizesFrom(256, 1, 11, 2);
    }
  }

  /** The first region has `first` units, the second `second`, and the top of the first `chunk` times 16 bytes. */
  lemma SizesFrom(g: int, first: int, chunk: int, second: int)
    requires g > 0 && g % 16 == 0 && first * g - g < 128 <= first * g && first * g - TOP_FOOT_SIZE == 16 * chunk >= 48
    requires second * g - g < 16 * chunk + SYS_PADDING <= second * g
    ensures FirstRegionSize(g) == first * g && SecondRegionSize(g) == second * g
    ensures Request2Size(0) == MIN_CHUNK_SIZE && Request2Size(SecondRequest(g)) == 16 * chunk
    ensures Fits(SecondRequest(g), 16 * chunk)
  {
    RoundsTo(128, g, first);
    RoundsTo(16 * chunk, 16, chunk);
    RoundsTo(16 * chunk + SYS_PADDING, g, second);
    hide AlignUp;
    assert Request2Size(0) + SYS_PADDING == 128;
    assert SecondRequest(g) == 16 * chunk - CHUNK_OVERHEAD;
    assert Request2Size(SecondRequest(g)) == 16 * chunk;
    assert 16 * chunk % 16 == 0;
  }

  lemma RoundsTo(a: int, g: int, q: int)
    requires g > 0 && q * g - g < a <= q * g
    ensures AlignUp(a, g) == q * g
  {
    ModUnique(a + (g - 1), q, a + (g - 1) - q * g, g);
  }

  /** A heap whose only segment is all top holds no free chunk. */
  lemma AllTop(h: Heap)
    requires Good(h, {}) && |h.segs| == 1 && h.top == h.segs[0].base
    ensures h.ix.sizes == map[] && h.dv == 0 && h.dvsize == 0
  {
    hide Good;
    TopHasSegment(h);
    HeldSeg(h, {}, 0);
    Tail(h, {});
    VictimReads(h, {});
    forall a | a in h.cs && h.cs[a].kind.Free?
      ensures false
    {
      InSomeSegment(h, a);
      assert InSeg(h.segs[0], a);
      TailOnly(h, {}, a);
      ChunkEnds(h, {}, a);
    }
    forall a | a in h.ix.sizes
      ensures false
    {
      BinnedSize(h, {}, a);
    }
  }

  /** Such a heap has to ask the system for as much as its top holds. */
  lemma TopTooSmall(h: Heap)
    requires Good(h, {}) && |h.segs| == 1 && h.top == h.segs[0].base
    ensures !InHand(h, h.topsize)
  {
    hide Good;
    AllTop(h);
    TopHasSegment(h);
    Tail(h, {});
  }

  /** The former top fills its segment, is in a small bin, and stays so while the new top is used. */
  lemma FilledBySmall(h: Heap, h1: Heap, h2: Heap)
    requires Good(h, {}) && |h.segs| == 1 && h.top == h.segs[0].base && h.topsize < 256 - TOP_FOOT_SIZE + 1
    requires MIN_CHUNK_SIZE <= h.topsize
    requires Good(h1, {}) && |h1.segs| == 2 && h1.dv == 0 && (h.top in OldTop(h) ==> TopAsHole(h, h1, h.top))
    requires Good(h2, {}) && h2.segs == h1.segs && h2.ix == h1.ix && h2.dv == 0
    requires h1.segs[1].base == h.top && h1.segs[1].size == h.segs[0].size
    ensures Releasable(h2, 1) && h.top in h2.ix.sizes && h.top !in h2.ix.loc && !PassSafe(h2)
  {
    hide Good;
    TopHasSegment(h);
    Tail(h, {});
    RecordAtEnd(h);
    WhereFree(h1, {}, h.top);
    BinnedSize(h1, {}, h.top);
    BinnedSize(h2, {}, h.top);
    GoodIndex(h2, {});
    SmallNotLocated(h2.m, h2.smallmap, h2.treemap, h2.ix, h.top);
  }

  /**
   The run `malloc(0)`, `free`, `malloc(r)` with `r` as above, on a system that supplies what it is asked for at the
   addresses 4096 and 8192. Each region has the size that `sys_alloc` asks for, and both times it has to ask.
   */
  method FailingRun(g: int) returns (a: Dlmalloc, ghost between: Heap)
    requires LegalGranularity(g) && g < MIN_REGION
    ensures fresh(a) && a.Valid() && a.releases && a.granularity == g
    ensures Good(between, {}) && between.segs == [Seg(4096, FirstRegionSize(g), SEG)] && LiveOf(between.cs) == map[]
    ensures !InHand(between, Request2Size(SecondRequest(g)))
    ensures Allocated(between, a.State(), 8192, SecondRequest(g), Request2Size(SecondRequest(g)))
    ensures |a.segs| == 2 && a.segs[0].base == 8192 && a.segs[0].size == SecondRegionSize(g)
    ensures a.segs[1].base == 4096 && a.segs[1].size == FirstRegionSize(g)
    ensures Releasable(a.State(), 1) && 4096 in a.ix.sizes && 4096 !in a.ix.loc && a.dv != 4096
    ensures !PassSafe(a.State())
    ensures a.traffic == [AskedFor(FirstRegionSize(g), 4096, FirstRegionSize(g)),
                          AskedFor(SecondRegionSize(g), 8192, SecondRegionSize(g))]
    ensures g < 256 ==> 4096 + PARENT in a.mem && a.mem[4096 + PARENT] == 48
    ensures g < 256 ==> 4096 + INDEX in a.mem && a.mem[4096 + INDEX] == RECORD_SIZE + 2 > 32
  {
    hide Good, LiveOf, Untouched, Total, Paged, LegalGranularity, Allocated, Fits, AlignUp, Request2Size, PassSafe,
         Releasable, InHand, FirstRegionSize, SecondRegionSize, SecondRequest, Outstanding, Peak;
    GranularityFacts(g);
    Sizes(g);
    var nb := FirstRegionSize(g) - TOP_FOOT_SIZE;
    a := new Dlmalloc(false, true, WORD_LIMIT);
    var ok := a.SetGranularity(g);
    FirstStep(a, FirstRegionSize(g));
    between := a.State();
    TopTooSmall(between);
    SecondStep(a, FirstRegionSize(g), SecondRegionSize(g), nb, SecondRequest(g));
    if g < 256 {
      MisreadAsNode(a.State(), 1);
    }
  }

  /** The second region, at 8192. */
  method SecondRegionAt(a: Dlmalloc, size: int, second: int)
    requires a.Valid() && a.segs == [Seg(4096, size, SEG)] && a.capacity == WORD_LIMIT && a.footprint == size
    requires a.top == 4096 && 128 <= size <= 256 && a.dv == 0
    requires second % 16 == 0 && LEAST_REGION <= second <= 512 && a.maxFootprint == size
    modifies a
    ensures a.Valid() && a.granularity == old(a.granularity) && a.dv == 0
    ensures LiveOf(a.cs) == LiveOf(old(a.cs)) && Untouched(old(a.mem), a.mem, LiveOf(old(a.cs)))
    ensures a.top == 8192 && a.topsize == second - TOP_FOOT_SIZE
    ensures forall p :: p in OldTop(old(a.State())) ==> TopAsHole(old(a.State()), a.State(), p)
    ensures a.segs == SegsWith(old(a.State()), 8192, second)
    ensures a.traffic == old(a.traffic) + [AskedFor(second, 8192, second)]
  {
    hide Good, LiveOf, Untouched, Total, LegalGranularity, TopAsHole, OldTop, SizesKept, Region, Outstanding, Peak;
    ghost var h := a.State();
    OneSegmentHeld(h, 8192, second);
    a.mem := a.mem + Blank(8192, second);
    BlankRegion(h.m, 8192, second, 0);
    a.AddSegment(8192, second, 0, h);
    OneMoreCall(a.traffic, AskedFor(second, 8192, second));
    BelowPeak(a.traffic + [AskedFor(second, 8192, second)]);
    a.traffic := a.traffic + [AskedFor(second, 8192, second)];
    a.footprint := a.footprint + second;
    a.maxFootprint := a.footprint;
  }

  /** The second region, at 8192, and a block that uses part of its top. */
  method SecondStep(a: Dlmalloc, size: int, second: int, nb: int, req: int)
    requires a.Valid() && a.segs == [Seg(4096, size, SEG)] && a.capacity == WORD_LIMIT && a.footprint == size
    requires a.top == 4096 && a.topsize == size - TOP_FOOT_SIZE == nb && 128 <= size <= 256 && Fits(req, nb)
    requires second % 16 == 0 && nb + SYS_PADDING <= second <= 512 && a.maxFootprint == size
    modifies a
    ensures a.Valid() && a.granularity == old(a.granularity) && |a.segs| == 2
    ensures a.segs[0] == Seg(8192, second, SEG) && a.segs[1].base == 4096 && a.segs[1].size == size
    ensures Allocated(old(a.State()), a.State(), 8192, req, nb)
    ensures a.traffic == old(a.traffic) + [AskedFor(second, 8192, second)]
    ensures Releasable(a.State(), 1) && 4096 in a.ix.sizes && 4096 !in a.ix.loc && a.dv == 0 && !PassSafe(a.State())
  {
    hide Good, LiveOf, Untouched, Total, LegalGranularity, TopAsHole, OldTop, Allocated, Fits, PassSafe, Releasable,
         SizesKept, Region, Outstanding, Peak;
    ghost var h := a.State();
    AllTop(h);
    SecondRegionAt(a, size, second);
    ghost var h1 := a.State();
    var r := a.MallocFromTop(nb, req);
    AllocatedAfter(h, h1, a.State(), 8192, req, nb);
    FilledBySmall(h, h1, a.State());
  }

  /** The first region, at 4096. */
  method FirstRegionAt(a: Dlmalloc, size: int)
    requires a.Valid() && a.segs == [] && LiveOf(a.cs) == map[] && a.capacity == WORD_LIMIT
    requires a.maxReleaseCheckRate == 4095 && size % 16 == 0 && 128 <= size <= 256 && a.traffic == []
    modifies a
    ensures a.Valid() && a.granularity == old(a.granularity)
    ensures a.segs == [Seg(4096, size, SEG)] && LiveOf(a.cs) == map[] && a.maxFootprint == size
    ensures a.traffic == [AskedFor(size, 4096, size)]
    ensures a.top == 4096 && a.topsize == size - TOP_FOOT_SIZE && a.footprint == size
    ensures a.trimCheck == DEFAULT_TRIM_THRESHOLD && a.releaseChecks == 4095 == a.maxReleaseCheckRate
  {
    hide Good, LiveOf, Untouched, Total, LegalGranularity, SizesKept, Region, Outstanding, Peak;
    ghost var h0 := a.State();
    TopHasSegment(h0);
    NoTotal();
    NothingHeld(h0, 4096, size);
    a.mem := a.mem + Blank(4096, size);
    BlankRegion(h0.m, 4096, size, MIN_CHUNK_SIZE + SYS_PADDING);
    a.FirstSegment(4096, size, 0, MIN_CHUNK_SIZE, h0);
    NoTraffic();
    OneMoreCall([], AskedFor(size, 4096, size));
    a.traffic := a.traffic + [AskedFor(size, 4096, size)];
    a.footprint, a.maxFootprint := size, size;
  }

  /** `malloc(0)` on an empty heap, with a region at 4096, and `free` of the block. */
  method FirstStep(a: Dlmalloc, size: int)
    requires a.Valid() && a.segs == [] && LiveOf(a.cs) == map[] && a.capacity == WORD_LIMIT
    requires a.maxReleaseCheckRate == 4095 && size % 16 == 0 && 128 <= size <= 256 && a.traffic == []
    modifies a
    ensures a.Valid() && a.granularity == old(a.granularity)
    ensures a.segs == [Seg(4096, size, SEG)] && LiveOf(a.cs) == map[] && a.maxFootprint == size
    ensures a.traffic == [AskedFor(size, 4096, size)]
    ensures a.top == 4096 && a.topsize == size - TOP_FOOT_SIZE && a.footprint == size
    ensures a.trimCheck == DEFAULT_TRIM_THRESHOLD && a.releaseChecks >= 1
  {
    hide Good, LiveOf, Untouched, Total, LegalGranularity, Allocated, Freed, TailLarge, Paged, Outstanding, Peak;
    FirstRegionAt(a, size);
    ghost var h1 := a.State();
    assert Fits(0, MIN_CHUNK_SIZE);
    hide Fits;
    var r := a.MallocFromTop(MIN_CHUNK_SIZE, 0);
    ghost var h2 := a.State();
    NewIsLive(h1, h2, r - MEM_OFFSET);
    a.Free(r);
    NoneLeft(h1, h2, a.State(), r - MEM_OFFSET);
    CanonicalTiling(h1, a.State());
  }

  lemma NewIsLive(h: Heap, h': Heap, p: int)
    requires Allocated(h, h', p, 0, MIN_CHUNK_SIZE)
    ensures p in LiveOf(h'.cs)
  {
  }

  lemma NoneLeft(h: Heap, h1: Heap, h2: Heap, p: int)
    requires Allocated(h, h1, p, 0, MIN_CHUNK_SIZE) && Freed(h1, h2, p)
    ensures LiveOf(h2.cs) == LiveOf(h.cs)
  {
    hide LiveOf, Untouched;
  }
}
