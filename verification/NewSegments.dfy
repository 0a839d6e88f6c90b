/**
 New regions that do not extend the head segment at its end: the first region, a region that becomes a segment of
 its own, and a region in front of an existing segment.
 */
module NewSegments {
  import opened Words
  import opened Bits
  import opened Memory
  import opened FreeIndex
  import opened Tiling
  import opened HeapState
  import opened HeapOps
  import opened Frames
  import opened Segments
  import opened Prepending

  // ---------- a fresh top and its reserve ----------

  /** A segment that is all top, up to the reserve at `f`. */
  function WithTop(cs: map<int, Chunk>, b: int, f: int): map<int, Chunk> {
    cs[b := Chunk(f - b, Top, true, true)][f := Chunk(TOP_FOOT_SIZE, Foot, false, false)]
  }

  ghost predicate RoomForTop(m: Mem, cs: map<int, Chunk>, b: int, f: int) {
    && HEAP_START <= b < f && b % 16 == 0 && f % 16 == 0 && f + TOP_FOOT_SIZE < WORD_LIMIT
    && Held(m, b, f + TOP_FOOT_SIZE)
    && m[b + HEAD] == Head(f - b, true, false) && m[f + HEAD] == TOP_FOOT_SIZE
    && forall a :: a in cs ==> a + cs[a].size <= b || f + TOP_FOOT_SIZE <= a
  }

  lemma WithTopChunk(m: Mem, cs: map<int, Chunk>, b: int, f: int, a: int)
    requires TagsOk(m, cs) && RoomForTop(m, cs, b, f) && a in WithTop(cs, b, f)
    ensures ChunkOk(m, WithTop(cs, b, f), a)
  {
    hide TagsOk;
    if a in cs {
      ChunkAt(m, cs, a);
      if !Ends(cs[a].kind) {
        ChunkAt(m, cs, a + cs[a].size);
      }
      if !cs[a].pin && !cs[a].kind.Foot? {
        ChunkAt(m, cs, a - m[a]);
      }
    }
  }

  lemma WithTopTags(m: Mem, cs: map<int, Chunk>, b: int, f: int)
    requires TagsOk(m, cs) && RoomForTop(m, cs, b, f)
    ensures TagsOk(m, WithTop(cs, b, f))
  {
    var cs' := WithTop(cs, b, f);
    forall a | a in cs'
      ensures ChunkOk(m, cs', a)
    {
      hide TagsOk, ChunkOk, RoomForTop;
      WithTopChunk(m, cs, b, f, a);
    }
    assert Disjoint(cs') by {
      hide ChunkOk;
      forall x, y | x in cs' && y in cs' && x < y
        ensures x + cs'[x].size <= y
      {
        WithTopChunk(m, cs, b, f, y);
        if x in cs && y in cs && x != b && x != f {
          Beside(m, cs, x, y);
        }
      }
    }
  }

  // ---------- before the first region ----------

  /** The allocator's struct as `new` makes it. */
  function ZeroStruct(): Mem { map w | SMALLBINS <= w < STRUCT_END && InStruct(w) :: 0 }

  ghost function EmptyIndex(): Index { Index(map[], seq(32, i => [SmallBinAt(i)]), map[], map[]) }

  ghost function NewHeap(): Heap {
    Heap(ZeroStruct(), 0, 0, EmptyIndex(), map[], [], 0, 0, 0, 0)
  }

  lemma EmptyGood()
    ensures Good(NewHeap(), {}) && LiveOf(NewHeap().cs) == map[]
  {
    hide Bit;
    var h := NewHeap();
    assert IndexOk(h.m, h.smallmap, h.treemap, h.ix) by {
      forall i | 0 <= i < 32
        ensures !Bit(h.smallmap, i) && !Bit(h.treemap, i)
      {
        ZeroBit(i);
      }
    }
    hide IndexOk;
    assert SegsOk(h.m, h.cs, h.segs);
    assert DomainOk(h.m, h.segs);
  }

  lemma ZeroBit(i: int)
    requires 0 <= i < 32
    ensures !Bit(0, i)
  {
    ZeroBits();
  }

  // ---------- the first region ----------

  /** A heap that has been given no memory yet. */
  lemma NothingYet(h: Heap)
    requires Good(h, {}) && h.top == 0
    ensures h.cs == map[] && h.segs == [] && h.ix.sizes == map[] && h.dv == 0 && h.dvsize == 0
    ensures TagsOk(h.m, h.cs) && IndexOk(h.m, h.smallmap, h.treemap, h.ix) && SegsOk(h.m, h.cs, h.segs)
    ensures Domain(h.m, h.segs)
  {
    hide TagsOk, IndexOk, SegsOk;
    DomainIff(h.m, h.segs);
    assert forall a :: a in h.ix.sizes ==> a in h.cs;
  }

  /** With no free chunk, every bin is empty, and the headers of the small bins hold anything. */
  lemma BinsStayEmpty(m: Mem, m': Mem, smallmap: bv32, treemap: bv32, ix: Index)
    requires IndexOk(m, smallmap, treemap, ix) && ix.sizes == map[]
    requires forall i :: 0 <= i < 32 ==> SmallBinAt(i) + PREV in m' && SmallBinAt(i) + NEXT in m'
    requires forall i :: 0 <= i < 32 ==> SameAt(m, m', TreeBinAt(i))
    ensures IndexOk(m', smallmap, treemap, ix)
  {
    hide Bit;
    assert SmallOk(m', smallmap, ix) by {
      hide TrieOk;
      forall i | 0 <= i < 32
        ensures SmallBinOk(m', smallmap, ix, i)
      {
        assert SmallBinOk(m, smallmap, ix, i);
        assert |ix.small[i]| > 1 ==> ix.small[i][1] in ix.sizes;
      }
    }
    hide SmallOk;
    NoNodes(m, treemap, ix);
    hide TrieOk;
    TrieFrame(m, m', treemap, ix, ix);
  }

  lemma NoNodes(m: Mem, treemap: bv32, ix: Index)
    requires TrieOk(m, treemap, ix) && ix.sizes == map[]
    ensures forall c :: c in ix.loc ==> false
  {
    hide NodeOk, TreeBinOk;
  }

  /** The words of the small-bin headers while `init_bins` runs: the first `n` of them point at themselves. */
  function BinsMade(m: Mem, n: int): (m': Mem)
    requires 0 <= n <= 32
    decreases n
  {
    if n == 0 then m else
    BinsMade(m, n - 1)[SmallBinAt(n - 1) + NEXT := SmallBinAt(n - 1)][SmallBinAt(n - 1) + PREV := SmallBinAt(n - 1)]
  }

  lemma {:induction false} BinsMadeWords(m: Mem, n: int, w: int)
    requires 0 <= n <= 32
    ensures !(SMALLBINS + PREV <= w < TREEBINS) ==>
      (w in BinsMade(m, n) <==> w in m) && (w in m ==> BinsMade(m, n)[w] == m[w])
    ensures (forall x :: SMALLBINS <= x < TREEBINS ==> x in m) ==> BinsMade(m, n).Keys == m.Keys
  {
    if n > 0 {
      BinsMadeWords(m, n - 1, w);
    }
  }

  ghost predicate FirstRegion(h: Heap, m1: Mem, m': Mem, tbase: int, tsize: int) {
    && HEAP_START <= tbase && tbase % 16 == 0 && tsize % 16 == 0 && TOP_FOOT_SIZE < tsize
    && tbase + tsize < WORD_LIMIT && Grown(h.m, m1, tbase, tbase + tsize)
    && m' == FirstWrites(m1, tbase, tsize)
  }

  /** Lines 460-466: the record of the first segment, the bins, top and its reserve. */
  function FirstWrites(m: Mem, tbase: int, tsize: int): Mem {
    TopMade(BinsMade(m[SEG := tbase][SEG + SEG_SIZE := tsize][SEG + SEG_FLAGS := 0], 32), tbase, tsize - TOP_FOOT_SIZE)
  }

  /** The writes of `init_top`, lines 781-791. */
  function TopMade(m: Mem, p: int, size: int): Mem {
    m[p + HEAD := Head(size, true, false)][p + size + HEAD := TOP_FOOT_SIZE]
  }

  function FirstHeap(h: Heap, m': Mem, tbase: int, tsize: int): Heap {
    h.(m := m', cs := WithTop(h.cs, tbase, tbase + tsize - TOP_FOOT_SIZE), segs := [Seg(tbase, tsize, SEG)],
       top := tbase, topsize := tsize - TOP_FOOT_SIZE)
  }

  /** What `init_bins` leaves as it was. */
  lemma BinsMadeKeep(m: Mem)
    requires forall w :: InStruct(w) ==> w in m
    ensures BinsMade(m, 32).Keys == m.Keys
    ensures forall w :: w in m && !(SMALLBINS + PREV <= w < TREEBINS) ==> BinsMade(m, 32)[w] == m[w]
  {
    hide BinsMade;
    BinsMadeWords(m, 32, 0);
    forall w | w in m && !(SMALLBINS + PREV <= w < TREEBINS)
      ensures BinsMade(m, 32)[w] == m[w]
    {
      BinsMadeWords(m, 32, w);
    }
  }

  ghost predicate FirstReads(h: Heap, m': Mem, tbase: int, tsize: int) {
    && RoomForTop(m', h.cs, tbase, tbase + tsize - TOP_FOOT_SIZE)
    && (forall w :: TREEBINS <= w < SEG ==> SameAt(h.m, m', w))
    && RecordOk(m', [Seg(tbase, tsize, SEG)], 0)
    && (forall w :: w in m' <==> InStruct(w) || tbase <= w < tbase + tsize)
  }

  ghost predicate BeforeTop(h: Heap, m3: Mem, tbase: int, tsize: int) {
    && (forall w :: w in m3 <==> InStruct(w) || tbase <= w < tbase + tsize)
    && (forall w :: TREEBINS <= w < SEG ==> SameAt(h.m, m3, w))
    && SEG in m3 && m3[SEG] == tbase && m3[SEG + SEG_SIZE] == tsize
    && m3[SEG + SEG_NEXT] == 0 && m3[SEG + SEG_FLAGS] == 0
  }

  lemma FirstWritten(h: Heap, m3: Mem, tbase: int, tsize: int)
    requires BeforeTop(h, m3, tbase, tsize) && h.cs == map[]
    requires HEAP_START <= tbase && tbase % 16 == 0 && tsize % 16 == 0 && TOP_FOOT_SIZE < tsize
    requires tbase + tsize < WORD_LIMIT
    ensures FirstReads(h, TopMade(m3, tbase, tsize - TOP_FOOT_SIZE), tbase, tsize)
  {
    var m' := TopMade(m3, tbase, tsize - TOP_FOOT_SIZE);
    forall w | TREEBINS <= w < SEG
      ensures SameAt(h.m, m', w)
    {
      assert SameAt(h.m, m3, w);
    }
  }

  lemma FirstRecordWritten(h: Heap, m1: Mem, tbase: int, tsize: int)
    requires Domain(h.m, []) && SEG + SEG_NEXT in h.m && h.m[SEG + SEG_NEXT] == 0
    requires HEAP_START <= tbase && Grown(h.m, m1, tbase, tbase + tsize)
    ensures BeforeTop(h, m1[SEG := tbase][SEG + SEG_SIZE := tsize][SEG + SEG_FLAGS := 0], tbase, tsize)
  {
    assert forall w :: InStruct(w) ==> w in h.m;
  }

  lemma FirstBins(h: Heap, m2: Mem, tbase: int, tsize: int)
    requires BeforeTop(h, m2, tbase, tsize)
    ensures BeforeTop(h, BinsMade(m2, 32), tbase, tsize)
  {
    BinsMadeKeep(m2);
    hide BinsMade;
    forall w | TREEBINS <= w < SEG
      ensures SameAt(h.m, BinsMade(m2, 32), w)
    {
      assert SameAt(h.m, m2, w);
    }
  }

  lemma FirstWords(h: Heap, m1: Mem, m': Mem, tbase: int, tsize: int)
    requires Domain(h.m, []) && SEG + SEG_NEXT in h.m && h.m[SEG + SEG_NEXT] == 0 && h.cs == map[]
    requires FirstRegion(h, m1, m', tbase, tsize)
    ensures FirstReads(h, m', tbase, tsize)
  {
    hide TopMade, BinsMade, Domain, Grown, BeforeTop, FirstReads;
    var m2 := m1[SEG := tbase][SEG + SEG_SIZE := tsize][SEG + SEG_FLAGS := 0];
    FirstRecordWritten(h, m1, tbase, tsize);
    FirstBins(h, m2, tbase, tsize);
    FirstWritten(h, BinsMade(m2, 32), tbase, tsize);
  }

  lemma FirstSegs(h: Heap, m': Mem, tbase: int, tsize: int)
    requires FirstReads(h, m', tbase, tsize) && h.cs == map[]
    requires tsize % 16 == 0
    ensures var h' := FirstHeap(h, m', tbase, tsize);
      SegsOk(m', h'.cs, h'.segs) && DomainOk(m', h'.segs) && EndsOk(h'.cs, h'.segs, h'.top, h'.topsize)
  {
    var h' := FirstHeap(h, m', tbase, tsize);
    hide RecordOk;
    assert h'.segs[0].base + h'.segs[0].size == tbase + tsize;
    DomainIff(m', h'.segs);
    forall w
      ensures InSeg(h'.segs[0], w) <==> Covered(h'.segs, w)
    {
    }
  }

  lemma FirstParts(h: Heap, m': Mem, tbase: int, tsize: int)
    requires FirstReads(h, m', tbase, tsize) && h.cs == map[] && h.ix.sizes == map[] && h.dv == 0 && h.dvsize == 0
    ensures PartsOk(FirstHeap(h, m', tbase, tsize), {})
    ensures LiveOf(FirstHeap(h, m', tbase, tsize).cs) == LiveOf(h.cs) == map[]
  {
    hide RecordOk;
  }

  /** The first region makes a good heap with nothing allocated. */
  lemma FirstGood(h: Heap, m1: Mem, m': Mem, tbase: int, tsize: int)
    requires Good(h, {}) && h.top == 0 && FirstRegion(h, m1, m', tbase, tsize)
    ensures Good(FirstHeap(h, m', tbase, tsize), {})
    ensures LiveOf(FirstHeap(h, m', tbase, tsize).cs) == LiveOf(h.cs) == map[]
  {
    hide Good, FirstWrites, RecordOk, Domain, TagsOk, IndexOk, SegsOk, DomainOk, PartsOk, EndsOk, LiveOf, Grown;
    var h', f := FirstHeap(h, m', tbase, tsize), tbase + tsize - TOP_FOOT_SIZE;
    NothingYet(h);
    NoRecord(h.m, h.cs);
    FirstWords(h, m1, m', tbase, tsize);
    FirstSegs(h, m', tbase, tsize);
    FirstParts(h, m', tbase, tsize);
    assert RoomForTop(m', h.cs, tbase, f);
    assert forall w :: TREEBINS <= w < SEG ==> SameAt(h.m, m', w);
    assert forall w :: InStruct(w) ==> w in m';
    hide FirstReads, RoomForTop, FirstRegion;
    assert TagsOk(m', h.cs) by { hide *; NoChunks(m'); }
    WithTopTags(m', h.cs, tbase, f);
    BinsStayEmpty(h.m, m', h.smallmap, h.treemap, h.ix);
    GoodFrom(h', {});
  }

  lemma NoRecord(m: Mem, cs: map<int, Chunk>)
    requires SegsOk(m, cs, [])
    ensures SEG + SEG_NEXT in m && m[SEG + SEG_NEXT] == 0
  {
  }

  lemma NoChunks(m: Mem)
    ensures TagsOk(m, map[])
  {
  }

  // ---------- closing the old head segment with a record ----------

  /** Where `add_segment` puts the record: at the end of the old top region, or at top if that has no room to spare. */
  function RecordAt(top: int, f: int): int {
    if f < top + MIN_CHUNK_SIZE then top else f
  }

  /** Top becomes a free chunk, or nothing, and the record and the fenceposts end the segment. */
  function Closed(cs: map<int, Chunk>, top: int, f: int): map<int, Chunk> {
    if top !in cs then cs else
    var csp := RecordAt(top, f);
    var rest := cs - {top, f};
    var one := if csp == top then rest else rest[top := Chunk(csp - top, Free, true, cs[top].first)];
    one[csp := Chunk(RECORD_SIZE, Rec, csp == top, csp == top && cs[top].first)]
       [csp + RECORD_SIZE := Chunk(f + TOP_FOOT_SIZE - csp - RECORD_SIZE, Fence, true, false)]
  }

  ghost predicate ClosedWritten(m': Mem, top: int, f: int) {
    var csp := RecordAt(top, f);
    && Held(m', top, f + TOP_FOOT_SIZE)
    && csp + HEAD in m' && m'[csp + HEAD] == Head(RECORD_SIZE, csp == top, true)
    && csp + RECORD_SIZE + HEAD in m' && m'[csp + RECORD_SIZE + HEAD] == FENCEPOST_HEAD
    && (csp != top ==>
          top + HEAD in m' && m'[top + HEAD] == Head(csp - top, true, false) && csp in m' && m'[csp] == csp - top)
  }

  ghost predicate CanClose(m: Mem, cs: map<int, Chunk>, m': Mem, top: int, f: int) {
    && top in cs && cs[top].kind.Top? && cs[top].pin && f == top + cs[top].size && f in cs && top < f
    && cs[f].kind.Foot? && cs[f].size == TOP_FOOT_SIZE
    && HEAP_START <= top && top % 16 == 0 && f % 16 == 0 && f + TOP_FOOT_SIZE < WORD_LIMIT
    && ClosedWritten(m', top, f)
    && (forall a :: a in cs && a != top && a != f ==> ChunkSame(m, m', a, cs[a]))
    && (forall a :: a in cs && a > top && a != f ==> f + TOP_FOOT_SIZE <= a)
  }

  /** Which chunks there are now. */
  lemma ClosedAt(m: Mem, cs: map<int, Chunk>, m': Mem, top: int, f: int, a: int)
    requires CanClose(m, cs, m', top, f)
    ensures var cs', csp := Closed(cs, top, f), RecordAt(top, f);
      && (a in cs' <==> (a in cs && a != f && a != top) || a == top || a == csp || a == csp + RECORD_SIZE)
      && (a in cs && a != f && a != top ==> a in cs' && cs'[a] == cs[a] && a != csp && a != csp + RECORD_SIZE)
      && csp in cs' && cs'[csp] == Chunk(RECORD_SIZE, Rec, csp == top, csp == top && cs[top].first)
      && csp + RECORD_SIZE in cs'
      && cs'[csp + RECORD_SIZE] == Chunk(f + TOP_FOOT_SIZE - csp - RECORD_SIZE, Fence, true, false)
      && (csp != top ==> top in cs' && cs'[top] == Chunk(csp - top, Free, true, cs[top].first))
      && (csp == top ==> f == top + 16) && (csp != top ==> csp == f && csp - top >= MIN_CHUNK_SIZE) && top in cs
  {
    hide ChunkSame, ClosedWritten;
  }

  lemma ClosedNew(m: Mem, cs: map<int, Chunk>, m': Mem, top: int, f: int, a: int)
    requires CanClose(m, cs, m', top, f)
    requires a == top || a == RecordAt(top, f) || a == RecordAt(top, f) + RECORD_SIZE
    ensures a in Closed(cs, top, f) && ChunkOk(m', Closed(cs, top, f), a)
  {
    hide Closed, RecordAt, ChunkSame;
    ClosedAt(m, cs, m', top, f, a);
    ClosedAt(m, cs, m', top, f, RecordAt(top, f));
  }

  lemma ClosedOld(m: Mem, cs: map<int, Chunk>, m': Mem, top: int, f: int, a: int)
    requires TagsOk(m, cs) && CanClose(m, cs, m', top, f) && a in Closed(cs, top, f) && a in cs && a != top && a != f
    ensures ChunkOk(m', Closed(cs, top, f), a)
  {
    hide TagsOk, Closed, RecordAt, ClosedWritten, HeadWord;
    ChunkAt(m, cs, a);
    Beside(m, cs, a, top);
    ClosedAt(m, cs, m', top, f, a);
    ClosedAt(m, cs, m', top, f, a + cs[a].size);
    ClosedAt(m, cs, m', top, f, a - (if a in m then m[a] else 0));
    if !Ends(cs[a].kind) {
      ChunkAt(m, cs, a + cs[a].size);
    }
  }

  lemma ClosedChunk(m: Mem, cs: map<int, Chunk>, m': Mem, top: int, f: int, a: int)
    requires TagsOk(m, cs) && CanClose(m, cs, m', top, f) && a in Closed(cs, top, f)
    ensures ChunkOk(m', Closed(cs, top, f), a)
  {
    hide TagsOk, Closed, RecordAt, CanClose, ChunkOk;
    ClosedAt(m, cs, m', top, f, a);
    if a == top || a == RecordAt(top, f) || a == RecordAt(top, f) + RECORD_SIZE {
      ClosedNew(m, cs, m', top, f, a);
    } else {
      ClosedOld(m, cs, m', top, f, a);
    }
  }

  lemma ClosedTags(m: Mem, cs: map<int, Chunk>, m': Mem, top: int, f: int)
    requires TagsOk(m, cs) && CanClose(m, cs, m', top, f)
    ensures TagsOk(m', Closed(cs, top, f))
  {
    var cs' := Closed(cs, top, f);
    forall a | a in cs'
      ensures ChunkOk(m', cs', a)
    {
      hide TagsOk, ChunkOk, CanClose, Closed;
      ClosedChunk(m, cs, m', top, f, a);
    }
    forall a, b | a in cs' && b in cs' && a < b
      ensures a + cs'[a].size <= b
    {
      hide TagsOk, ChunkOk, CanClose, Closed;
      ClosedApart(m, cs, m', top, f, a, b);
    }
    hide ChunkOk, Closed, CanClose;
  }

  lemma ClosedApart(m: Mem, cs: map<int, Chunk>, m': Mem, top: int, f: int, a: int, b: int)
    requires TagsOk(m, cs) && CanClose(m, cs, m', top, f)
    requires a in Closed(cs, top, f) && b in Closed(cs, top, f) && a < b
    ensures a + Closed(cs, top, f)[a].size <= b
  {
    hide ChunkSame, ClosedWritten, Closed, TagsOk, RecordAt;
    ClosedAt(m, cs, m', top, f, a);
    ClosedAt(m, cs, m', top, f, b);
    if a in cs && a != f {
      Beside(m, cs, a, top);
      if b in cs && b != f {
        Beside(m, cs, a, b);
      }
    }
  }

  // ---------- a region that becomes the new head segment ----------

  function Added(h: Heap, m': Mem, tbase: int, tsize: int): Heap {
    if h.segs == [] then h else
    var f := h.top + h.topsize;
    h.(m := m', cs := WithTop(Closed(h.cs, h.top, f), tbase, tbase + tsize - TOP_FOOT_SIZE),
       segs := [Seg(tbase, tsize, SEG), h.segs[0].(rec := RecordAt(h.top, f) + MEM_OFFSET)] + h.segs[1..],
       top := tbase, topsize := tsize - TOP_FOOT_SIZE)
  }

  /** The old top, if it is kept as a free chunk. */
  function OldTop(h: Heap): set<int> {
    if RecordAt(h.top, h.top + h.topsize) == h.top then {} else {h.top}
  }

  /** The memory that `add_segment` leaves before it bins the old top. */
  ghost predicate AddWritten(h: Heap, m': Mem, tbase: int, tsize: int) {
    && h.segs != []
    && HEAP_START <= tbase && tbase % 16 == 0 && tsize % 16 == 0 && TOP_FOOT_SIZE < tsize && tbase + tsize < WORD_LIMIT
    && (forall w :: w in m' <==> w in h.m || tbase <= w < tbase + tsize)
    && (forall w :: w in h.m ==> !(tbase <= w < tbase + tsize))
    && SameOutside(h.m, m', h.top + HEAD, End(h.segs[0]))
    && ClosedWritten(m', h.top, h.top + h.topsize)
    && m'[tbase + HEAD] == Head(tsize - TOP_FOOT_SIZE, true, false)
    && m'[tbase + tsize - TOP_FOOT_SIZE + HEAD] == TOP_FOOT_SIZE
    && RecordOk(m', Added(h, m', tbase, tsize).segs, 0) && RecordOk(m', Added(h, m', tbase, tsize).segs, 1)
  }

  lemma AddWrites(h: Heap, m': Mem, tbase: int, tsize: int)
    requires AddWritten(h, m', tbase, tsize)
    ensures h.segs != [] && ClosedWritten(m', h.top, h.top + h.topsize)
    ensures SameOutside(h.m, m', h.top + HEAD, End(h.segs[0]))
    ensures forall w :: w in h.m ==> !(tbase <= w < tbase + tsize)
    ensures forall w :: w in m' <==> w in h.m || tbase <= w < tbase + tsize
    ensures HEAP_START <= tbase && tbase % 16 == 0 && tsize % 16 == 0
    ensures TOP_FOOT_SIZE < tsize && tbase + tsize < WORD_LIMIT
    ensures RecordOk(m', Added(h, m', tbase, tsize).segs, 0) && RecordOk(m', Added(h, m', tbase, tsize).segs, 1)
  {
    hide ClosedWritten, SameOutside, RecordOk;
  }

  lemma AddTail(h: Heap, m': Mem, tbase: int, tsize: int)
    requires Good(h, {}) && h.top != 0 && AddWritten(h, m', tbase, tsize)
    ensures TailKept(h, m') && CanClose(h.m, h.cs, m', h.top, h.top + h.topsize)
  {
    hide Good, AddWritten, TailKept, SameOutside, ChunkSame, ClosedWritten;
    AddWrites(h, m', tbase, tsize);
    Tail(h, {});
    HeldSeg(h, {}, 0);
    TailFrame(h, m', {});
    TailChunks(h, m');
    forall a | a in h.cs && a > h.top && a != h.top + h.topsize
      ensures End(h.segs[0]) <= a
    {
      TailOnly(h, {}, a);
      ReadTags(h, {}, a);
    }
  }

  lemma AddRoom(h: Heap, m': Mem, tbase: int, tsize: int)
    requires Good(h, {}) && h.top != 0 && AddWritten(h, m', tbase, tsize)
    ensures RoomForTop(m', Closed(h.cs, h.top, h.top + h.topsize), tbase, tbase + tsize - TOP_FOOT_SIZE)
  {
    hide Good, TailKept, SameOutside, ChunkSame, ClosedWritten, CanClose, Closed, RecordOk;
    var cs1 := Closed(h.cs, h.top, h.top + h.topsize);
    AddTail(h, m', tbase, tsize);
    Tail(h, {});
    forall a | a in cs1
      ensures a + cs1[a].size <= tbase || tbase + tsize <= a
    {
      AddRoomAt(h, m', tbase, tsize, a);
    }
  }

  lemma AddRoomAt(h: Heap, m': Mem, tbase: int, tsize: int, a: int)
    requires Good(h, {}) && h.top != 0 && AddWritten(h, m', tbase, tsize)
    requires a in Closed(h.cs, h.top, h.top + h.topsize)
    ensures var cs1 := Closed(h.cs, h.top, h.top + h.topsize); a + cs1[a].size <= tbase || tbase + tsize <= a
  {
    hide Good, TailKept, SameOutside, ChunkSame, ClosedWritten, CanClose, Closed, RecordOk;
    var f, cs1 := h.top + h.topsize, Closed(h.cs, h.top, h.top + h.topsize);
    AddTail(h, m', tbase, tsize);
    Tail(h, {});
    HeldSeg(h, {}, 0);
    ClosedAt(h.m, h.cs, m', h.top, f, a);
    if a in h.cs && a != f && a != h.top {
      ReadTags(h, {}, a);
    } else {
      ClosedAt(h.m, h.cs, m', h.top, f, RecordAt(h.top, f));
      assert h.top <= a < a + cs1[a].size <= End(h.segs[0]);
      assert Held(h.m, a, a + cs1[a].size);
    }
    ApartFromRegion(h.m, a, a + cs1[a].size, tbase, tbase + tsize);
  }

  /** Which chunks there are in the end. */
  lemma AddedAt(h: Heap, m': Mem, tbase: int, tsize: int, a: int)
    requires CanClose(h.m, h.cs, m', h.top, h.top + h.topsize) && h.segs != []
    requires RoomForTop(m', Closed(h.cs, h.top, h.top + h.topsize), tbase, tbase + tsize - TOP_FOOT_SIZE)
    requires forall b :: b in h.cs ==> h.cs[b].size > 0
    ensures AddedKinds(h, Added(h, m', tbase, tsize).cs, tbase, tsize, a)
  {
    hide CanClose, Closed, RecordAt;
    var f := h.top + h.topsize;
    var cs1 := Closed(h.cs, h.top, f);
    ClosedAt(h.m, h.cs, m', h.top, f, a);
    ClosedAt(h.m, h.cs, m', h.top, f, h.top);
    hide ChunkSame, ClosedWritten;
    assert forall b :: b in cs1 ==> b + cs1[b].size <= tbase || tbase + tsize <= b;
    var csp := RecordAt(h.top, f);
    assert csp in cs1 && csp + RECORD_SIZE in cs1 && cs1[csp + RECORD_SIZE].size > 0;
  }

  ghost predicate AddedKinds(h: Heap, cs': map<int, Chunk>, tbase: int, tsize: int, a: int) {
    var f := h.top + h.topsize;
    var csp, f' := RecordAt(h.top, f), tbase + tsize - TOP_FOOT_SIZE;
    && (a in cs' ==> (a in h.cs && a != f && a != h.top && cs'[a] == h.cs[a])
                     || (a == h.top && csp != h.top) || a == csp || a == csp + RECORD_SIZE || a == tbase || a == f')
    && (a in h.cs && a != f && a != h.top ==> a in cs' && cs'[a] == h.cs[a])
    && csp in cs' && h.top in h.cs
    && cs'[csp] == Chunk(RECORD_SIZE, Rec, csp == h.top, csp == h.top && h.cs[h.top].first)
    && csp + RECORD_SIZE in cs'
    && cs'[csp + RECORD_SIZE] == Chunk(f + TOP_FOOT_SIZE - csp - RECORD_SIZE, Fence, true, false)
    && (csp != h.top ==> h.top in cs' && cs'[h.top] == Chunk(csp - h.top, Free, true, h.cs[h.top].first))
    && (csp == h.top ==> f == h.top + 16) && (csp != h.top ==> csp == f && csp - h.top >= MIN_CHUNK_SIZE)
    && tbase in cs' && cs'[tbase] == Chunk(f' - tbase, Top, true, true)
    && f' in cs' && cs'[f'] == Chunk(TOP_FOOT_SIZE, Foot, false, false)
  }

  /** Every address, seen through `AddedKinds`. */
  lemma AddedAll(h: Heap, m': Mem, tbase: int, tsize: int)
    requires Good(h, {}) && h.top != 0 && AddWritten(h, m', tbase, tsize)
    ensures h.segs != [] && forall a :: AddedKinds(h, Added(h, m', tbase, tsize).cs, tbase, tsize, a)
  {
    hide Good, AddWritten, AddedKinds, RoomForTop, CanClose, TailKept, Added;
    AddWrites(h, m', tbase, tsize);
    AddTail(h, m', tbase, tsize);
    AddRoom(h, m', tbase, tsize);
    SizesPositive(h, {});
    forall a
      ensures AddedKinds(h, Added(h, m', tbase, tsize).cs, tbase, tsize, a)
    {
      AddedAt(h, m', tbase, tsize, a);
    }
  }

  ghost predicate TopAsHole(h: Heap, h': Heap, a: int) {
    a == h.top && a in h'.cs && h'.cs[a].kind.Free? && h'.cs[a].size == h.topsize
  }

  lemma AddParts(h: Heap, m': Mem, tbase: int, tsize: int)
    requires Good(h, {}) && h.top != 0 && AddWritten(h, m', tbase, tsize)
    ensures PartsOk(Added(h, m', tbase, tsize), OldTop(h)) && LiveOf(Added(h, m', tbase, tsize).cs) == LiveOf(h.cs)
    ensures forall a :: a in OldTop(h) ==> TopAsHole(h, Added(h, m', tbase, tsize), a)
  {
    hide Good, AddWritten, AddedKinds, RecordAt, Added, OldTop, TagsOk, IndexOk, PartsOk, SegsOk, DomainOk, EndsOk,
         LiveOf;
    var h' := Added(h, m', tbase, tsize);
    AddedAll(h, m', tbase, tsize);
    AddWrites(h, m', tbase, tsize);
    Tail(h, {});
    AddedFields(h, m', tbase, tsize);
    AddFree(h, h'.cs, tbase, tsize);
    AddLive(h, h'.cs, tbase, tsize);
    GoodParts(h, {});
    AddTop(h, h'.cs, tbase, tsize);
    AddPlaced(h, h');
  }

  lemma AddPlaced(h: Heap, h': Heap)
    requires PartsOk(h, {}) && TopOk(h'.cs, h'.top, h'.topsize)
    requires h'.ix == h.ix && h'.dv == h.dv && h'.dvsize == h.dvsize && TailAt(h, h.top + h.topsize)
    requires forall a :: a in h.cs && h.cs[a].kind.Free? ==> a in h'.cs && h'.cs[a] == h.cs[a]
    requires forall a :: a in h'.cs && h'.cs[a].kind.Free? ==> (a in h.cs && h.cs[a].kind.Free?) || a in OldTop(h)
    requires forall a :: a in OldTop(h) ==> a == h.top && a in h'.cs && h'.cs[a].kind.Free?
    ensures PartsOk(h', OldTop(h))
  {
    hide OldTop, TopOk;
  }

  /** The list with the new head segment; the old one's record is now in its own memory. */
  function SegsWith(h: Heap, tbase: int, tsize: int): seq<Seg>
    requires h.segs != []
  {
    [Seg(tbase, tsize, SEG), h.segs[0].(rec := RecordAt(h.top, h.top + h.topsize) + MEM_OFFSET)] + h.segs[1..]
  }

  lemma AddedFields(h: Heap, m': Mem, tbase: int, tsize: int)
    requires h.segs != []
    ensures var h' := Added(h, m', tbase, tsize);
      && h'.m == m' && h'.ix == h.ix && h'.smallmap == h.smallmap && h'.treemap == h.treemap
      && h'.dv == h.dv && h'.dvsize == h.dvsize && h'.top == tbase && h'.topsize == tsize - TOP_FOOT_SIZE
      && h'.segs == SegsWith(h, tbase, tsize)
  {
  }

  lemma AddFree(h: Heap, cs': map<int, Chunk>, tbase: int, tsize: int)
    requires forall a :: AddedKinds(h, cs', tbase, tsize, a)
    requires TailAt(h, h.top + h.topsize)
    ensures forall a :: a in h.cs && h.cs[a].kind.Free? ==> a in cs' && cs'[a] == h.cs[a]
    ensures forall a :: a in cs' && cs'[a].kind.Free? ==> (a in h.cs && h.cs[a].kind.Free?) || a in OldTop(h)
    ensures forall a :: a in OldTop(h) ==> a == h.top && a in cs' && cs'[a].kind.Free? && cs'[a].size == h.topsize
  {
    hide RecordAt;
    forall a
      ensures a in h.cs && h.cs[a].kind.Free? ==> a in cs' && cs'[a] == h.cs[a]
      ensures a in cs' && cs'[a].kind.Free? ==> (a in h.cs && h.cs[a].kind.Free?) || a in OldTop(h)
      ensures a in OldTop(h) ==> a == h.top && a in cs' && cs'[a].kind.Free? && cs'[a].size == h.topsize
    {
      assert AddedKinds(h, cs', tbase, tsize, a);
    }
  }

  lemma AddTop(h: Heap, cs': map<int, Chunk>, tbase: int, tsize: int)
    requires forall a :: AddedKinds(h, cs', tbase, tsize, a)
    requires TailAt(h, h.top + h.topsize) && PartsOk(h, {}) && tbase != 0
    ensures TopOk(cs', tbase, tsize - TOP_FOOT_SIZE)
  {
    hide RecordAt, BinnedOk, FreePlaced, VictimOk;
    assert AddedKinds(h, cs', tbase, tsize, tbase);
    forall a | a in cs' && cs'[a].kind.Top?
      ensures a == tbase
    {
      assert AddedKinds(h, cs', tbase, tsize, a);
    }
  }

  lemma AddLive(h: Heap, cs': map<int, Chunk>, tbase: int, tsize: int)
    requires forall a :: AddedKinds(h, cs', tbase, tsize, a)
    requires TailAt(h, h.top + h.topsize)
    ensures LiveOf(cs') == LiveOf(h.cs)
  {
    hide RecordAt;
    forall a
      ensures a in LiveOf(cs') <==> a in LiveOf(h.cs)
      ensures a in LiveOf(h.cs) ==> LiveOf(cs')[a] == LiveOf(h.cs)[a]
    {
      assert AddedKinds(h, cs', tbase, tsize, a);
    }
  }

  lemma AddEnds(h: Heap, m': Mem, tbase: int, tsize: int)
    requires Good(h, {}) && h.top != 0 && AddWritten(h, m', tbase, tsize)
    ensures var h' := Added(h, m', tbase, tsize); EndsOk(h'.cs, h'.segs, h'.top, h'.topsize)
  {
    hide Good, AddWritten, AddedKinds, RecordAt, Added, TagsOk, IndexOk, PartsOk, SegsOk, DomainOk;
    var h' := Added(h, m', tbase, tsize);
    AddedAll(h, m', tbase, tsize);
    AddedFields(h, m', tbase, tsize);
    Tail(h, {});
    GoodParts(h, {});
    forall a | a in h'.cs && Ends(h'.cs[a].kind)
      ensures EndsSegment(h'.segs, a + h'.cs[a].size)
    {
      AddedEnd(h, h'.cs, tbase, tsize, a);
      if a == tbase + tsize - TOP_FOOT_SIZE {
        assert a + h'.cs[a].size == h'.segs[0].base + h'.segs[0].size;
      } else if a + h'.cs[a].size == End(h.segs[0]) {
        assert a + h'.cs[a].size == h'.segs[1].base + h'.segs[1].size;
      } else {
        var i :| 0 <= i < |h.segs| && a + h.cs[a].size == h.segs[i].base + h.segs[i].size;
        assert h'.segs[i + 1] == h.segs[i];
      }
    }
  }

  lemma AddedEnd(h: Heap, cs': map<int, Chunk>, tbase: int, tsize: int, a: int)
    requires h.segs != [] && TailAt(h, h.top + h.topsize)
    requires AddedKinds(h, cs', tbase, tsize, a) && a in cs' && Ends(cs'[a].kind)
    ensures a == tbase + tsize - TOP_FOOT_SIZE ==> a + cs'[a].size == tbase + tsize
    ensures a != tbase + tsize - TOP_FOOT_SIZE && a + cs'[a].size != End(h.segs[0]) ==> a in h.cs && cs'[a] == h.cs[a]
  {
    hide RecordAt;
  }

  lemma AddDomain(h: Heap, m': Mem, tbase: int, tsize: int)
    requires Good(h, {}) && h.top != 0 && AddWritten(h, m', tbase, tsize)
    ensures Domain(m', Added(h, m', tbase, tsize).segs)
  {
    hide Good, AddWritten, Added;
    var segs' := Added(h, m', tbase, tsize).segs;
    HeldStruct(h, {});
    AddWrites(h, m', tbase, tsize);
    AddedFields(h, m', tbase, tsize);
    forall w
      ensures w in m' <==> InStruct(w) || Covered(segs', w)
    {
      assert w in h.m <==> InStruct(w) || Covered(h.segs, w);
      if i :| 0 <= i < |h.segs| && InSeg(h.segs[i], w) {
        assert InSeg(segs'[i + 1], w);
      }
      if tbase <= w < tbase + tsize {
        assert InSeg(segs'[0], w);
      }
      if i :| 0 <= i < |segs'| && InSeg(segs'[i], w) {
        assert i > 0 ==> InSeg(h.segs[i - 1], w);
      }
    }
  }

  lemma AddSeg(h: Heap, m': Mem, tbase: int, tsize: int, i: int)
    requires Good(h, {}) && h.top != 0 && AddWritten(h, m', tbase, tsize) && 0 <= i <= |h.segs|
    ensures i < |Added(h, m', tbase, tsize).segs|
    ensures SegOk(Added(h, m', tbase, tsize).cs, Added(h, m', tbase, tsize).segs[i], i == 0)
  {
    hide Good, AddWritten, AddedKinds, RecordAt, Added, TagsOk, IndexOk, PartsOk, SegsOk, DomainOk, EndsOk, RecordOk;
    var h', f := Added(h, m', tbase, tsize), h.top + h.topsize;
    AddedAll(h, m', tbase, tsize);
    AddedFields(h, m', tbase, tsize);
    AddWrites(h, m', tbase, tsize);
    Tail(h, {});
    GoodParts(h, {});
    if i == 0 {
      hide SegsOk;
      assert AddedKinds(h, h'.cs, tbase, tsize, tbase);
      AddHeadSeg(h, h'.cs, tbase, tsize);
    } else if i == 1 {
      SegsRecord(h.m, h.cs, h.segs, 0);
      assert AddedKinds(h, h'.cs, tbase, tsize, h.segs[0].base);
      AddClosedSeg(h, h'.cs, tbase, tsize);
    } else {
      hide SegOk;
      SegsRecord(h.m, h.cs, h.segs, i - 1);
      forall a | a in h.cs && InSeg(h.segs[i - 1], a)
        ensures a in h'.cs && h'.cs[a] == h.cs[a]
      {
        OtherSegment(h, i - 1, a);
        AddedSame(h, h'.cs, tbase, tsize, a);
      }
      SizesPositive(h, {});
      SegKept(h.cs, h'.cs, h.segs[i - 1], false);
    }
  }

  lemma AddedSame(h: Heap, cs': map<int, Chunk>, tbase: int, tsize: int, a: int)
    requires AddedKinds(h, cs', tbase, tsize, a) && a in h.cs && a != h.top && a != h.top + h.topsize
    ensures a in cs' && cs'[a] == h.cs[a]
  {
    hide RecordAt;
  }

  lemma AddHeadSeg(h: Heap, cs': map<int, Chunk>, tbase: int, tsize: int)
    requires AddedKinds(h, cs', tbase, tsize, tbase)
    requires HEAP_START <= tbase && tbase % 16 == 0 && tsize % 16 == 0
    requires TOP_FOOT_SIZE < tsize && tbase + tsize < WORD_LIMIT
    ensures SegOk(cs', Seg(tbase, tsize, SEG), true)
  {
    hide RecordAt;
  }

  lemma AddClosedSeg(h: Heap, cs': map<int, Chunk>, tbase: int, tsize: int)
    requires h.segs != [] && TailAt(h, h.top + h.topsize) && SegOk(h.cs, h.segs[0], true)
    requires AddedKinds(h, cs', tbase, tsize, h.segs[0].base)
    ensures SegOk(cs', h.segs[0].(rec := RecordAt(h.top, h.top + h.topsize) + MEM_OFFSET), false)
  {
  }

  lemma AddSegs(h: Heap, m': Mem, tbase: int, tsize: int)
    requires Good(h, {}) && h.top != 0 && AddWritten(h, m', tbase, tsize)
    ensures SegsOk(m', Added(h, m', tbase, tsize).cs, Added(h, m', tbase, tsize).segs)
  {
    hide Good, AddWritten, AddedKinds, RecordAt, Added, TagsOk, IndexOk, PartsOk, SegsOk, DomainOk, EndsOk, RecordOk,
         SegOk, TailKept, CanClose, SameRecord, SameOutside, ClosedWritten;
    var h' := Added(h, m', tbase, tsize);
    AddWrites(h, m', tbase, tsize);
    AddedFields(h, m', tbase, tsize);
    AddTail(h, m', tbase, tsize);
    GoodParts(h, {});
    forall i | 0 <= i < |h'.segs|
      ensures SegOk(h'.cs, h'.segs[i], i == 0) && RecordOk(m', h'.segs, i)
    {
      AddSeg(h, m', tbase, tsize, i);
      if i > 1 {
        TailRecord(h, m', i - 1);
        SegsRecord(h.m, h.cs, h.segs, i - 1);
        RecordKept(h.m, m', h.segs, h'.segs, i - 1, i);
      }
    }
    forall i, j | 0 <= i < j < |h'.segs|
      ensures SegsApart(h'.segs[i], h'.segs[j])
    {
      if i > 0 {
        SegsPair(h.m, h.cs, h.segs, i - 1, j - 1);
      } else {
        HeldSeg(h, {}, j - 1);
        ApartFromRegion(h.m, h.segs[j - 1].base, End(h.segs[j - 1]), tbase, tbase + tsize);
      }
    }
    SegsFrom(m', h'.cs, h'.segs);
  }

  /** A region that extends no segment becomes the head segment; the old top is in hand. */
  lemma AddGood(h: Heap, m': Mem, tbase: int, tsize: int)
    requires Good(h, {}) && h.top != 0 && AddWritten(h, m', tbase, tsize)
    ensures Good(Added(h, m', tbase, tsize), OldTop(h)) && Untouched(h.m, m', LiveOf(h.cs))
    ensures LiveOf(Added(h, m', tbase, tsize).cs) == LiveOf(h.cs)
    ensures forall a :: a in OldTop(h) ==> TopAsHole(h, Added(h, m', tbase, tsize), a)
  {
    hide Good, AddWritten, AddedKinds, RecordAt, Added, OldTop, TagsOk, IndexOk, PartsOk, SegsOk, DomainOk, EndsOk,
         LiveOf, CanClose, RoomForTop, Closed, WithTop, Untouched, TopAsHole, Domain, RecordOk, SameOutside,
         ClosedWritten;
    var h', f := Added(h, m', tbase, tsize), h.top + h.topsize;
    GoodParts(h, {});
    AddWrites(h, m', tbase, tsize);
    AddedFields(h, m', tbase, tsize);
    AddTail(h, m', tbase, tsize);
    ClosedTags(h.m, h.cs, m', h.top, f);
    AddRoom(h, m', tbase, tsize);
    WithTopTags(m', Closed(h.cs, h.top, f), tbase, tbase + tsize - TOP_FOOT_SIZE);
    assert h'.cs == WithTop(Closed(h.cs, h.top, f), tbase, tbase + tsize - TOP_FOOT_SIZE) by {
      AddedChunks(h, m', tbase, tsize);
    }
    AddParts(h, m', tbase, tsize);
    AddSegs(h, m', tbase, tsize);
    AddDomain(h, m', tbase, tsize);
    DomainIff(m', h'.segs);
    AddEnds(h, m', tbase, tsize);
    GoodFrom(h', OldTop(h));
  }

  lemma AddedChunks(h: Heap, m': Mem, tbase: int, tsize: int)
    requires h.segs != []
    ensures Added(h, m', tbase, tsize).cs
         == WithTop(Closed(h.cs, h.top, h.top + h.topsize), tbase, tbase + tsize - TOP_FOOT_SIZE)
  {
  }

  // ---------- the writes of `add_segment` ----------

  /** Memory after the record and the fenceposts have been written. */
  ghost predicate FencesDone(h: Heap, m1: Mem, m2: Mem, tbase: int, tsize: int) {
    var f := h.top + h.topsize;
    var csp := RecordAt(h.top, f);
    var ss := csp + MEM_OFFSET;
    && h.segs != [] && m2.Keys == m1.Keys
    && csp + HEAD in m2 && m2[csp + HEAD] == Head(RECORD_SIZE, true, true)
    && csp + RECORD_SIZE + HEAD in m2 && m2[csp + RECORD_SIZE + HEAD] == FENCEPOST_HEAD
    && tbase + HEAD in m2 && m2[tbase + HEAD] == Head(tsize - TOP_FOOT_SIZE, true, false)
    && tbase + tsize - TOP_FOOT_SIZE + HEAD in m2 && m2[tbase + tsize - TOP_FOOT_SIZE + HEAD] == TOP_FOOT_SIZE
    && RecordIs(m2, ss, h.segs[0].base, h.segs[0].size, RecAt(h.segs, 1))
    && RecordIs(m2, SEG, tbase, tsize, ss)
    && forall w :: w in m1 && m2[w] != m1[w] ==>
         SEG <= w < STRUCT_END || csp + HEAD <= w < End(h.segs[0]) || tbase <= w < tbase + tsize
  }

  ghost predicate RecordIs(m: Mem, r: int, base: int, size: int, next: int) {
    && r in m && m[r] == base && r + SEG_SIZE in m && m[r + SEG_SIZE] == size
    && r + SEG_NEXT in m && m[r + SEG_NEXT] == next && r + SEG_FLAGS in m && m[r + SEG_FLAGS] == 0
  }

  /** Lines 893-898: the rest of the old top becomes a free chunk. */
  function AddFinal(h: Heap, m2: Mem): Mem {
    var csp := RecordAt(h.top, h.top + h.topsize);
    if csp == h.top then m2 else SetFreeWithPinuse(m2, h.top, csp - h.top, csp)
  }

  lemma RecordAtEnd(h: Heap)
    requires Good(h, {}) && h.top != 0
    ensures TailAt(h, h.top + h.topsize)
    ensures var f := h.top + h.topsize; var csp := RecordAt(h.top, f);
      && (csp == h.top ==> f == h.top + 16) && (csp != h.top ==> csp == f && f >= h.top + MIN_CHUNK_SIZE)
      && h.top <= csp && csp % 16 == 0 && csp + RECORD_SIZE + 32 <= End(h.segs[0])
    ensures Held(h.m, h.top, End(h.segs[0]))
  {
    hide Good;
    Tail(h, {});
    HeldSeg(h, {}, 0);
  }

  /** `AddFinal` changes words of the old top region only: the heads of top and of the record, and the foot between. */
  lemma AddFinalWords(h: Heap, m1: Mem, m2: Mem, tbase: int, tsize: int)
    requires Good(h, {}) && h.top != 0 && FencesDone(h, m1, m2, tbase, tsize) && Grown(h.m, m1, tbase, tbase + tsize)
    ensures var m' := AddFinal(h, m2);
      && m'.Keys == m2.Keys
      && forall w :: w in m2 && !(h.top + HEAD <= w <= h.top + h.topsize + HEAD) ==> m'[w] == m2[w]
  {
    hide Good, RecordAt, RecordIs;
    RecordAtEnd(h);
  }

  lemma AddFinalClosed(h: Heap, m1: Mem, m2: Mem, tbase: int, tsize: int)
    requires Good(h, {}) && h.top != 0 && FencesDone(h, m1, m2, tbase, tsize) && Grown(h.m, m1, tbase, tbase + tsize)
    ensures ClosedWritten(AddFinal(h, m2), h.top, h.top + h.topsize)
  {
    hide Good, RecordAt, RecordIs;
    RecordAtEnd(h);
    assert Held(m2, h.top, End(h.segs[0]));
  }

  lemma AddFinalOutside(h: Heap, m1: Mem, m2: Mem, tbase: int, tsize: int)
    requires Good(h, {}) && h.top != 0 && FencesDone(h, m1, m2, tbase, tsize) && Grown(h.m, m1, tbase, tbase + tsize)
    ensures SameOutside(h.m, AddFinal(h, m2), h.top + HEAD, End(h.segs[0]))
  {
    hide Good, RecordAt, RecordIs;
    RecordAtEnd(h);
    AddFinalWords(h, m1, m2, tbase, tsize);
    hide AddFinal;
  }

  lemma AddRecordsOk(h: Heap, m': Mem, tbase: int, tsize: int)
    requires h.segs != []
    requires var ss := RecordAt(h.top, h.top + h.topsize) + MEM_OFFSET;
      RecordIs(m', ss, h.segs[0].base, h.segs[0].size, RecAt(h.segs, 1)) && RecordIs(m', SEG, tbase, tsize, ss)
    ensures RecordOk(m', Added(h, m', tbase, tsize).segs, 0) && RecordOk(m', Added(h, m', tbase, tsize).segs, 1)
  {
    hide RecordAt;
  }

  lemma AddFinalRecord(h: Heap, m2: Mem)
    requires Good(h, {}) && h.top != 0 && h.segs != [] && Held(m2, h.top, End(h.segs[0]))
    requires forall w :: SEG <= w < STRUCT_END ==> w in m2
    ensures var m', ss := AddFinal(h, m2), RecordAt(h.top, h.top + h.topsize) + MEM_OFFSET;
      && m'.Keys == m2.Keys
      && (forall b, s, n :: RecordIs(m2, ss, b, s, n) ==> RecordIs(m', ss, b, s, n))
      && (forall b, s, n :: RecordIs(m2, SEG, b, s, n) ==> RecordIs(m', SEG, b, s, n))
      && (forall w :: w in m2 && End(h.segs[0]) <= w ==> m'[w] == m2[w])
      && (forall w :: w in m2 && w < h.top ==> m'[w] == m2[w])
  {
    hide Good, RecordAt;
    RecordAtEnd(h);
  }

  lemma FencesFacts(h: Heap, m1: Mem, m2: Mem, tbase: int, tsize: int)
    requires FencesDone(h, m1, m2, tbase, tsize)
    ensures h.segs != [] && m2.Keys == m1.Keys
    ensures var ss := RecordAt(h.top, h.top + h.topsize) + MEM_OFFSET;
      RecordIs(m2, ss, h.segs[0].base, h.segs[0].size, RecAt(h.segs, 1)) && RecordIs(m2, SEG, tbase, tsize, ss)
    ensures tbase + HEAD in m2 && m2[tbase + HEAD] == Head(tsize - TOP_FOOT_SIZE, true, false)
    ensures tbase + tsize - TOP_FOOT_SIZE + HEAD in m2 && m2[tbase + tsize - TOP_FOOT_SIZE + HEAD] == TOP_FOOT_SIZE
  {
    hide RecordAt, RecordIs;
  }

  lemma AddFinalRecords(h: Heap, m1: Mem, m2: Mem, tbase: int, tsize: int)
    requires Good(h, {}) && h.top != 0 && FencesDone(h, m1, m2, tbase, tsize) && Grown(h.m, m1, tbase, tbase + tsize)
    requires HEAP_START <= tbase && TOP_FOOT_SIZE < tsize && tbase % 16 == 0 && tsize % 16 == 0
    ensures var m' := AddFinal(h, m2);
      && RecordOk(m', Added(h, m', tbase, tsize).segs, 0) && RecordOk(m', Added(h, m', tbase, tsize).segs, 1)
      && tbase + HEAD in m' && m'[tbase + HEAD] == Head(tsize - TOP_FOOT_SIZE, true, false)
      && tbase + tsize - TOP_FOOT_SIZE + HEAD in m' && m'[tbase + tsize - TOP_FOOT_SIZE + HEAD] == TOP_FOOT_SIZE
  {
    hide Good, RecordAt, FencesDone, RecordIs, RecordOk, AddFinal, Added;
    RecordAtEnd(h);
    FencesFacts(h, m1, m2, tbase, tsize);
    ApartFromRegion(h.m, h.top, End(h.segs[0]), tbase, tbase + tsize);
    HeldStruct(h, {});
    AddFinalRecord(h, m2);
    AddRecordsOk(h, AddFinal(h, m2), tbase, tsize);
  }

  lemma AddReady(h: Heap, m1: Mem, m2: Mem, tbase: int, tsize: int)
    requires Good(h, {}) && h.top != 0 && FencesDone(h, m1, m2, tbase, tsize)
    requires HEAP_START <= tbase && tbase % 16 == 0 && tsize % 16 == 0
    requires TOP_FOOT_SIZE < tsize && tbase + tsize < WORD_LIMIT
    requires Grown(h.m, m1, tbase, tbase + tsize)
    ensures AddWritten(h, AddFinal(h, m2), tbase, tsize)
  {
    hide Good, RecordAt, FencesDone, ClosedWritten, SameOutside, RecordOk, AddFinal, Added;
    FencesFacts(h, m1, m2, tbase, tsize);
    AddFinalWords(h, m1, m2, tbase, tsize);
    AddFinalClosed(h, m1, m2, tbase, tsize);
    AddFinalOutside(h, m1, m2, tbase, tsize);
    AddFinalRecords(h, m1, m2, tbase, tsize);
  }

  /** Where the record displaced the old top, nothing is left of it. */
  lemma NoOldTop(h: Heap, m2: Mem)
    requires RecordAt(h.top, h.top + h.topsize) == h.top
    ensures OldTop(h) == {} && AddFinal(h, m2) == m2
  {
  }

  /** The state with the new segment, its old top still in hand. */
  ghost predicate SegmentAdded(h: Heap, h': Heap, tbase: int, tsize: int) {
    && Good(h', OldTop(h)) && LiveOf(h'.cs) == LiveOf(h.cs) && Untouched(h.m, h'.m, LiveOf(h.cs))
    && h' == h.(m := h'.m, cs := h'.cs, segs := h'.segs, top := tbase, topsize := tsize - TOP_FOOT_SIZE)
    && Total(h'.segs) == Total(h.segs) + tsize && SizesKept(h.segs, h'.segs, tsize)
    && h.segs != []
    && h'.segs == SegsWith(h, tbase, tsize)
    && (forall a :: a in OldTop(h) ==> TopAsHole(h, h', a))
  }

  lemma AddedState(h: Heap, m1: Mem, m2: Mem, tbase: int, tsize: int)
    requires Good(h, {}) && h.top != 0 && Region(h.m, m1, tbase, tsize, 0) && FencesDone(h, m1, m2, tbase, tsize)
    ensures SegmentAdded(h, Added(h, AddFinal(h, m2), tbase, tsize), tbase, tsize)
    ensures Added(h, AddFinal(h, m2), tbase, tsize).m == AddFinal(h, m2)
  {
    hide Good, LiveOf, Region, RegionFits, FencesDone, AddWritten, Untouched, RecordAt, Grown, Closed, SizesKept,
         Total, AddFinal, OldTop, TopAsHole;
    RegionIs(h.m, m1, tbase, tsize, 0);
    FencesFacts(h, m1, m2, tbase, tsize);
    AddReady(h, m1, m2, tbase, tsize);
    AddGood(h, AddFinal(h, m2), tbase, tsize);
    AddedFields(h, AddFinal(h, m2), tbase, tsize);
    var s := h.segs[0].(rec := RecordAt(h.top, h.top + h.topsize) + MEM_OFFSET);
    PagedAdd(h.segs, Seg(tbase, tsize, SEG), s);
    TotalAdd(h.segs, Seg(tbase, tsize, SEG), s);
  }

  // ---------- what the writes need to be held ----------

  lemma RegionIs(m: Mem, m': Mem, base: int, tsize: int, size: int)
    requires Region(m, m', base, tsize, size)
    ensures HEAP_START <= base && base % 16 == 0 && tsize % 16 == 0 && size <= tsize && LEAST_REGION <= tsize
    ensures base + tsize < WORD_LIMIT && Grown(m, m', base, base + tsize)
  {
    hide Grown;
  }

  lemma FirstHeld(h: Heap, m1: Mem, tbase: int, tsize: int)
    requires Good(h, {}) && Grown(h.m, m1, tbase, tbase + tsize) && HEAP_START <= tbase && LEAST_REGION <= tsize
    ensures forall w :: InStruct(w) ==> w in m1
    ensures tbase + HEAD in m1 && tbase + tsize - TOP_FOOT_SIZE + HEAD in m1
    ensures forall m: Mem :: (forall w :: w in m1 ==> w in m) ==>
      tbase + HEAD in BinsMade(m, 32) && tbase + tsize - TOP_FOOT_SIZE + HEAD in BinsMade(m, 32)
  {
    hide Good, BinsMade;
    HeldStruct(h, {});
    forall m: Mem | forall w :: w in m1 ==> w in m
      ensures tbase + HEAD in BinsMade(m, 32) && tbase + tsize - TOP_FOOT_SIZE + HEAD in BinsMade(m, 32)
    {
      BinsMadeWords(m, 32, tbase + HEAD);
      BinsMadeWords(m, 32, tbase + tsize - TOP_FOOT_SIZE + HEAD);
    }
  }

  lemma AppendHeld(h: Heap, m1: Mem, tsize: int)
    requires Good(h, {}) && h.top != 0 && h.segs != [] && tsize > 0
    requires Grown(h.m, m1, End(h.segs[0]), End(h.segs[0]) + tsize)
    ensures h.top + HEAD in m1 && h.top + h.topsize + tsize + HEAD in m1
  {
    hide Good;
    Tail(h, {});
    HeldSeg(h, {}, 0);
  }

  lemma TopWritesIs(m1: Mem, h: Heap, tsize: int)
    requires h.segs != []
    ensures TopWrites(m1, h.segs[0].size + tsize, h.top, h.topsize + tsize)
         == TopMade(m1[SEG + SEG_SIZE := h.segs[0].size + tsize], h.top, h.topsize + tsize)
  {
  }

  lemma AlignedEnd(e: int)
    requires e % 16 == 0
    ensures e - 95 + AlignOffset(e - 95 + MEM_OFFSET) == e - TOP_FOOT_SIZE
  {
  }

  lemma HeadRec(m: Mem, segs: seq<Seg>)
    requires Linked(m, segs)
    ensures segs != [] && segs[0].rec == SEG
  {
    hide RecordOk;
  }

  /** The first segment found to hold top is the head segment. */
  lemma FenceWords(end: int, csp: int)
    requires end % 16 == 0 && csp % 16 == 0
    ensures (end - (csp + RECORD_SIZE)) % 8 == 0
  {
  }

  lemma HeadFirst(h: Heap, i: int)
    requires Good(h, {}) && h.top != 0 && 0 <= i <= |h.segs| && forall j :: 0 <= j < i ==> !InSeg(h.segs[j], h.top)
    ensures i == 0 && h.segs != []
  {
    hide Good;
    Tail(h, {});
    HeadHoldsTop(h, {}, 0);
  }

  lemma CloseHeld(h: Heap, m1: Mem, tbase: int, tsize: int, csp: int)
    requires Good(h, {}) && h.top != 0 && Grown(h.m, m1, tbase, tbase + tsize)
    requires HEAP_START <= tbase && LEAST_REGION <= tsize && csp == RecordAt(h.top, h.top + h.topsize)
    ensures TailAt(h, h.top + h.topsize) && HEAP_START <= csp
    ensures forall w :: h.top <= w < End(h.segs[0]) ==> w in m1
    ensures tbase + HEAD in m1 && tbase + tsize - TOP_FOOT_SIZE + HEAD in m1
    ensures csp + RECORD_SIZE + 32 <= End(h.segs[0]) && h.top <= csp
    ensures End(h.segs[0]) <= tbase || tbase + tsize <= h.top
  {
    hide Good, RecordAt;
    RecordAtEnd(h);
    ApartFromRegion(h.m, h.top, End(h.segs[0]), tbase, tbase + tsize);
  }

  lemma TopAndRecord(m1: Mem, tbase: int, size: int, csp: int, ssize: int)
    requires tbase + HEAD in m1 && tbase + size + HEAD in m1 && csp + HEAD in m1
    ensures var m2 := SetSizeAndPinuseOfInuseChunk(TopMade(m1, tbase, size), csp, ssize);
      && m2.Keys == m1.Keys
      && (forall w :: w in m2 && m2[w] != m1[w] ==> w == tbase + HEAD || w == tbase + size + HEAD || w == csp + HEAD)
      && m2[csp + HEAD] == Head(ssize, true, true)
      && (csp != tbase && csp != tbase + size && size != 0 ==>
            m2[tbase + HEAD] == Head(size, true, false) && m2[tbase + size + HEAD] == TOP_FOOT_SIZE)
  {
  }

  lemma LinkedMisses(h: Heap, m1: Mem, m2: Mem, tbase: int, tsize: int, csp: int)
    requires Good(h, {}) && h.top != 0 && Linked(m1, h.segs)
    requires Grown(h.m, m1, tbase, tbase + tsize) && m2.Keys == m1.Keys
    requires csp == RecordAt(h.top, h.top + h.topsize)
    requires forall w :: w in m2 && m2[w] != m1[w] ==>
      w == tbase + HEAD || w == tbase + tsize - TOP_FOOT_SIZE + HEAD || w == csp + HEAD
    requires LEAST_REGION <= tsize
    ensures Linked(m2, h.segs)
  {
    hide Good, RecordOk, RecordAt;
    RecordAtEnd(h);
    forall i | 0 <= i < |h.segs|
      ensures RecordOk(m2, h.segs, i)
    {
      assert RecordOk(m1, h.segs, i);
      RecordHeld(h, i);
      assert h.segs[i].rec + 32 <= h.top || End(h.segs[0]) <= h.segs[i].rec by { RecordNotInTail(h, i); }
      RecordSameWords(m1, m2, h.segs, i);
    }
  }

  lemma RecordSameWords(m1: Mem, m2: Mem, segs: seq<Seg>, i: int)
    requires 0 <= i < |segs| && RecordOk(m1, segs, i) && m2.Keys == m1.Keys
    requires forall w :: segs[i].rec <= w < segs[i].rec + 32 && w in m1 ==> m2[w] == m1[w]
    ensures RecordOk(m2, segs, i)
  {
  }

  lemma RecordHeld(h: Heap, i: int)
    requires Good(h, {}) && 0 <= i < |h.segs|
    ensures Held(h.m, h.segs[i].rec, h.segs[i].rec + 32)
  {
    hide Good, RecordOk;
    if i == 0 {
      PlaceRecord(h, {}, 0);
      HeldStruct(h, {});
    } else {
      RecordInside(h, {}, i);
      HeldSeg(h, {}, i);
    }
  }

  lemma RecordNotInTail(h: Heap, i: int)
    requires Good(h, {}) && h.top != 0 && 0 <= i < |h.segs|
    ensures h.segs != [] && (h.segs[i].rec + 32 <= h.top || End(h.segs[0]) <= h.segs[i].rec)
  {
    hide Good, RecordOk;
    Tail(h, {});
    if i == 0 {
      PlaceRecord(h, {}, 0);
    } else {
      RecordInside(h, {}, i);
      SegsApartOf(h, {}, 0, i);
      HeldSeg(h, {}, i);
    }
  }

  /** `*to = *from` for segment records. */
  function CopyRecord(m: Mem, from: int, to: int): Mem {
    m[to := At(m, from)][to + SEG_SIZE := At(m, from + SEG_SIZE)]
     [to + SEG_NEXT := At(m, from + SEG_NEXT)][to + SEG_FLAGS := At(m, from + SEG_FLAGS)]
  }

  function WriteRecord(m: Mem, r: int, base: int, size: int, flags: int, next: int): Mem {
    m[r := base][r + SEG_SIZE := size][r + SEG_FLAGS := flags][r + SEG_NEXT := next]
  }

  ghost predicate RecordWords(m: Mem, r: int) {
    r in m && r + SEG_SIZE in m && r + SEG_NEXT in m && r + SEG_FLAGS in m
  }

  lemma CopyWords(m: Mem, from: int, to: int, base: int, size: int, next: int)
    requires RecordIs(m, from, base, size, next) && RecordWords(m, to) && (from + 32 <= to || to + 32 <= from)
    ensures var m' := CopyRecord(m, from, to);
      && m'.Keys == m.Keys && RecordIs(m', to, base, size, next)
      && forall w :: w in m && !(to <= w < to + 32) ==> m'[w] == m[w]
  {
  }

  lemma WriteWords(m: Mem, r: int, base: int, size: int, next: int)
    requires RecordWords(m, r)
    ensures var m' := WriteRecord(m, r, base, size, 0, next);
      && m'.Keys == m.Keys && RecordIs(m', r, base, size, next)
      && forall w :: w in m && !(r <= w < r + 32) ==> m'[w] == m[w]
  {
  }

  lemma HeadIs(m: Mem, segs: seq<Seg>)
    requires Linked(m, segs)
    ensures RecordIs(m, SEG, segs[0].base, segs[0].size, RecAt(segs, 1))
  {
    assert RecordOk(m, segs, 0);
  }

  lemma SameRecordIs(m: Mem, m': Mem, r: int, base: int, size: int, next: int)
    requires RecordIs(m, r, base, size, next) && m'.Keys == m.Keys
    requires forall w :: w in m && r <= w < r + 32 ==> m'[w] == m[w]
    ensures RecordIs(m', r, base, size, next)
  {
  }

  /** The steps of `add_segment`: `m2` has the new top and the record's head, `m3` the records, `m4` the fenceposts. */
  ghost predicate CloseSteps(h: Heap, m1: Mem, m2: Mem, m3: Mem, m4: Mem, tbase: int, tsize: int, csp: int) {
    && csp == RecordAt(h.top, h.top + h.topsize) && h.segs != []
    && m2.Keys == m1.Keys && m3.Keys == m1.Keys && m4.Keys == m1.Keys
    && tbase + HEAD in m1 && tbase + tsize - TOP_FOOT_SIZE + HEAD in m1
    && csp + HEAD in m1 && csp + RECORD_SIZE + HEAD in m1
    && m2 == SetSizeAndPinuseOfInuseChunk(TopMade(m1, tbase, tsize - TOP_FOOT_SIZE), csp, RECORD_SIZE)
    && RecordIs(m3, csp + MEM_OFFSET, h.segs[0].base, h.segs[0].size, RecAt(h.segs, 1))
    && RecordIs(m3, SEG, tbase, tsize, csp + MEM_OFFSET)
    && (forall w :: w in m1 && !(SEG <= w < STRUCT_END) && !(csp + MEM_OFFSET <= w < csp + MEM_OFFSET + 32) ==>
          m3[w] == m2[w])
    && m4[csp + RECORD_SIZE + HEAD] == FENCEPOST_HEAD
    && (forall w :: w in m1 && !(csp + RECORD_SIZE + HEAD <= w < End(h.segs[0])) ==> m4[w] == m3[w])
  }

  lemma CloseWritten(h: Heap, m1: Mem, m2: Mem, m3: Mem, m4: Mem, tbase: int, tsize: int, csp: int)
    requires CloseSteps(h, m1, m2, m3, m4, tbase, tsize, csp)
    requires HEAP_START <= tbase && LEAST_REGION <= tsize
    requires HEAP_START <= csp && csp + RECORD_SIZE + 32 <= End(h.segs[0])
    requires End(h.segs[0]) <= tbase || tbase + tsize <= csp
    ensures FencesDone(h, m1, m4, tbase, tsize)
  {
    hide RecordAt, RecordIs, TopMade, SetSizeAndPinuseOfInuseChunk;
    TopAndRecord(m1, tbase, tsize - TOP_FOOT_SIZE, csp, RECORD_SIZE);
    SameRecordIs(m3, m4, csp + MEM_OFFSET, h.segs[0].base, h.segs[0].size, RecAt(h.segs, 1));
    SameRecordIs(m3, m4, SEG, tbase, tsize, csp + MEM_OFFSET);
  }

  lemma RegionWeaker(m: Mem, m': Mem, base: int, tsize: int, asize: int, size: int)
    requires Region(m, m', base, tsize, asize) && 0 <= size <= asize
    ensures Region(m, m', base, tsize, size) && Region(m, m', base, tsize, 0)
  {
    hide Grown;
  }

  lemma FirstUntouched(h: Heap, h': Heap, tbase: int, tsize: int)
    requires LiveOf(h.cs) == map[] && LiveOf(h'.cs) == map[]
    requires h'.segs == [Seg(tbase, tsize, SEG)] && Good(h, {}) && h.top == 0
    ensures Untouched(h.m, h'.m, LiveOf(h.cs)) && LiveOf(h'.cs) == LiveOf(h.cs)
    ensures Total(h'.segs) == Total(h.segs) + tsize
  {
    hide Good;
    NothingYet(h);
    assert [Seg(tbase, tsize, SEG)][1..] == [];
  }

  // ---------- a region of zeros ----------

  function Blank(base: int, size: int): Mem { map w | base <= w < base + size && InSeg(Seg(base, size, 0), w) :: 0 }

  lemma BlankRegion(m: Mem, base: int, tsize: int, size: int)
    requires RegionFits(base, tsize, size) && forall w :: base <= w < base + tsize ==> w !in m
    ensures Region(m, m + Blank(base, tsize), base, tsize, size)
  {
  }

  /** Without segments only the allocator's struct is held. */
  lemma NothingHeld(h: Heap, base: int, size: int)
    requires Good(h, {}) && h.segs == [] && HEAP_START <= base
    ensures forall w :: base <= w < base + size ==> w !in h.m
  {
    hide TagsOk, IndexOk, PartsOk, SegsOk, EndsOk;
  }

  lemma OneSegmentHeld(h: Heap, base: int, size: int)
    requires Good(h, {}) && |h.segs| == 1 && End(h.segs[0]) <= base && HEAP_START <= base
    ensures forall w :: base <= w < base + size ==> w !in h.m
  {
    hide TagsOk, IndexOk, PartsOk, SegsOk, EndsOk;
  }
}
