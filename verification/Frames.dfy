/**
 What survives a change of memory that leaves the words of chunks alone: new regions, returned regions, segment
 records, and the bytes that callers write into their own blocks.
 */
module Frames {
  import opened Words
  import opened Memory
  import opened SizeClasses
  import opened FreeIndex
  import opened IndexReads
  import opened Tiling
  import opened HeapState
  import opened HeapOps

  // ---------- tags ----------

  ghost predicate ChunkSame(m: Mem, m': Mem, a: int, c: Chunk) {
    Held(m', a, a + c.size) && SameAt(m, m', a + HEAD) && (!c.pin && !c.kind.Foot? ==> SameAt(m, m', a))
  }

  /** The head and, where it is one, the foot of every chunk stay as they are. */
  ghost predicate TagsSame(m: Mem, m': Mem, cs: map<int, Chunk>) {
    forall a :: a in cs ==> ChunkSame(m, m', a, cs[a])
  }

  lemma ChunkFrame(m: Mem, m': Mem, cs: map<int, Chunk>, a: int)
    requires TagsOk(m, cs) && TagsSame(m, m', cs) && a in cs
    ensures ChunkOk(m', cs, a)
  {
    hide TagsOk, TagsSame, KindOk, PinOk, HeadWord, Used;
    ChunkAt(m, cs, a);
    SameAs(m, m', cs, a);
    var n := a + cs[a].size;
    if !Ends(cs[a].kind) {
      assert n in cs;
      ChunkAt(m, cs, n);
      SameAs(m, m', cs, n);
      if cs[a].kind.Free? {
        FreeThen(m, cs, a);
      }
    }
  }

  lemma SameAs(m: Mem, m': Mem, cs: map<int, Chunk>, a: int)
    requires TagsSame(m, m', cs) && a in cs
    ensures ChunkSame(m, m', a, cs[a])
  {
  }

  ghost predicate UsedAt(cs: map<int, Chunk>, n: int) { n in cs && !cs[n].kind.Foot? && Used(cs[n].kind) && !cs[n].pin }

  lemma FreeThen(m: Mem, cs: map<int, Chunk>, a: int)
    requires TagsOk(m, cs) && a in cs && cs[a].kind.Free?
    ensures UsedAt(cs, a + cs[a].size)
  {
    hide TagsOk, SelfOk, PrevOk;
    ChunkAt(m, cs, a);
  }

  lemma TagsFrame(m: Mem, m': Mem, cs: map<int, Chunk>)
    requires TagsOk(m, cs) && TagsSame(m, m', cs)
    ensures TagsOk(m', cs)
  {
    forall a | a in cs
      ensures ChunkOk(m', cs, a)
    {
      hide TagsOk, TagsSame, ChunkOk;
      ChunkFrame(m, m', cs, a);
    }
    hide ChunkOk, TagsSame;
  }

  // ---------- the index ----------

  /** The words of a free chunk from its head on. */
  ghost predicate BodySame(m: Mem, m': Mem, a: int, size: int) {
    forall w :: a + HEAD <= w < a + size ==> SameAt(m, m', w)
  }

  ghost predicate BodiesSame(m: Mem, m': Mem, sizes: map<int, int>) {
    forall a :: a in sizes ==> BodySame(m, m', a, sizes[a])
  }

  ghost predicate BinsSame(m: Mem, m': Mem) {
    forall w :: SMALLBINS <= w < SEG ==> SameAt(m, m', w)
  }

  lemma BodyWords(m: Mem, m': Mem, a: int, size: int)
    requires FreeWords(m, a, size) && BodySame(m, m', a, size)
    ensures FreeWords(m', a, size) && SameRingWords(m, m', a) && (!IsSmall(size) ==> SameTreeWords(m, m', a))
  {
    assert SameAt(m, m', a + HEAD) && SameAt(m, m', a + PREV) && SameAt(m, m', a + NEXT);
    if !IsSmall(size) {
      assert SameAt(m, m', a + LEFT) && SameAt(m, m', a + RIGHT);
      assert SameAt(m, m', a + PARENT) && SameAt(m, m', a + INDEX);
    }
  }

  lemma IndexFrame(m: Mem, m': Mem, smallmap: bv32, treemap: bv32, ix: Index)
    requires IndexOk(m, smallmap, treemap, ix) && BodiesSame(m, m', ix.sizes) && BinsSame(m, m')
    ensures IndexOk(m', smallmap, treemap, ix)
  {
    hide SizesOk, SmallOk, TrieOk, IsSmall, BodySame;
    TrieOf(m, smallmap, treemap, ix);
    forall a | a in ix.sizes
      ensures FreeWords(m', a, ix.sizes[a]) && SameRingWords(m, m', a)
      ensures !IsSmall(ix.sizes[a]) ==> SameTreeWords(m, m', a)
    {
      hide IndexOk, FreeWords, SameRingWords, SameTreeWords;
      ReadChunk(m, ix.sizes, a);
      BodyWords(m, m', a, ix.sizes[a]);
    }
    assert SizesOk(m', ix.sizes) by { SameSizes(m, m', ix.sizes); }
    hide FreeWords, BodiesSame;
    forall i | 0 <= i < 32
      ensures SameRingWords(m, m', SmallBinAt(i)) && SameAt(m, m', TreeBinAt(i))
    {
      hide IndexOk, SameAt;
      assert SameAt(m, m', SmallBinAt(i) + PREV) && SameAt(m, m', SmallBinAt(i) + NEXT);
    }
    assert SmallOk(m', smallmap, ix) by { hide IndexOk, SameRingWords; SmallFrame(m, m', smallmap, ix, ix); }
    assert TrieOk(m', treemap, ix) by {
      hide IndexOk, SameRingWords, SameTreeWords, SameAt;
      LocatedOf(m, treemap, ix);
      LocatedSame(m, m', ix);
      TrieFrame(m, m', treemap, ix, ix);
    }
  }

  // ---------- segments and their records ----------

  ghost predicate Covered(segs: seq<Seg>, w: int) {
    exists i :: 0 <= i < |segs| && InSeg(segs[i], w)
  }

  /** The held words are exactly the struct and the segments. */
  ghost predicate Domain(m: Mem, segs: seq<Seg>) {
    forall w :: w in m <==> InStruct(w) || Covered(segs, w)
  }

  lemma DomainIff(m: Mem, segs: seq<Seg>)
    ensures DomainOk(m, segs) <==> Domain(m, segs)
  {
    if DomainOk(m, segs) {
      forall w
        ensures w in m <==> InStruct(w) || Covered(segs, w)
      {
      }
    }
    if Domain(m, segs) {
      forall i | 0 <= i < |segs|
        ensures Held(m, segs[i].base, segs[i].base + segs[i].size)
      {
        forall w | segs[i].base <= w < segs[i].base + segs[i].size
          ensures w in m
        {
          assert InSeg(segs[i], w);
        }
      }
    }
  }

  lemma SegKept(cs: map<int, Chunk>, cs': map<int, Chunk>, s: Seg, isHead: bool)
    requires SegOk(cs, s, isHead)
    requires forall a :: a in cs && InSeg(s, a) ==> a in cs' && cs'[a] == cs[a]
    requires forall a :: a in cs ==> cs[a].size > 0
    ensures SegOk(cs', s, isHead)
  {
    if isHead {
      assert InSeg(s, s.base + s.size - TOP_FOOT_SIZE);
    } else {
      assert InSeg(s, s.rec - MEM_OFFSET) && InSeg(s, s.rec - MEM_OFFSET + RECORD_SIZE);
    }
  }

  lemma RecordKept(m: Mem, m': Mem, segs: seq<Seg>, segs': seq<Seg>, i: int, j: int)
    requires 0 <= i < |segs| && 0 <= j < |segs'| && RecordOk(m, segs, i) && SameRecord(m, m', segs[i].rec)
    requires segs'[j] == segs[i]
    requires i + 1 < |segs| <==> j + 1 < |segs'|
    requires i + 1 < |segs| ==> segs'[j + 1].rec == segs[i + 1].rec
    ensures RecordOk(m', segs', j)
  {
  }

  ghost predicate SameFree(cs: map<int, Chunk>, cs': map<int, Chunk>) {
    && (forall a :: a in cs && cs[a].kind.Free? ==> a in cs' && cs'[a].kind.Free? && cs'[a].size == cs[a].size)
    && (forall a :: a in cs' && cs'[a].kind.Free? ==> a in cs && cs[a].kind.Free?)
  }

  lemma PartsFrame(h: Heap, h': Heap, holes: set<int>)
    requires PartsOk(h, holes) && SameFree(h.cs, h'.cs) && h'.ix == h.ix && h'.dv == h.dv && h'.dvsize == h.dvsize
    requires TopOk(h'.cs, h'.top, h'.topsize)
    ensures PartsOk(h', holes)
  {
    hide TopOk;
  }

  // ---------- what callers do with their blocks ----------

  /** Only payload words of the chunk `a` may differ. */
  ghost predicate PayloadWrites(m: Mem, m': Mem, a: int, size: int) {
    && m'.Keys == m.Keys
    && forall w :: w in m && m'[w] != m[w] ==> Payload(a, size, w)
  }

  lemma PayloadMisses(h: Heap, m': Mem, holes: set<int>, a: int, b: int)
    requires Good(h, holes) && a in h.cs && (h.cs[a].kind.Live? || h.cs[a].kind.Rec?) && b in h.cs
    requires PayloadWrites(h.m, m', a, h.cs[a].size)
    ensures ChunkSame(h.m, m', b, h.cs[b])
    ensures h.cs[b].kind.Free? ==> BodySame(h.m, m', b, h.cs[b].size)
    ensures a != b && (h.cs[b].kind.Live? || h.cs[b].kind.Rec?) ==> SamePayload(h.m, m', b, h.cs[b].size)
  {
    hide Good;
    ReadTags(h, holes, a);
    ReadTags(h, holes, b);
    ReadNext(h, holes, a);
    GoodBeside(h, holes, a, b);
    if h.cs[b].kind.Live? || h.cs[b].kind.Rec? {
      ReadTags(h, holes, b + h.cs[b].size);
    }
    hide TagReads, KindOk;
    if b == a + h.cs[a].size {
      assert h.cs[b].pin;
    }
  }

  /** The bytes of a block belong to whoever holds it: writing any of them keeps the heap and every other block. */
  lemma PayloadIsFree(h: Heap, m': Mem, holes: set<int>, a: int)
    requires Good(h, holes) && a in h.cs && h.cs[a].kind.Live? && PayloadWrites(h.m, m', a, h.cs[a].size)
    ensures Good(h.(m := m'), holes) && Untouched(h.m, m', LiveOf(h.cs) - {a})
  {
    hide Good, PayloadWrites, ChunkSame, BodySame, SamePayload;
    forall b | b in h.cs
      ensures ChunkSame(h.m, m', b, h.cs[b])
      ensures h.cs[b].kind.Free? ==> BodySame(h.m, m', b, h.cs[b].size)
      ensures a != b && (h.cs[b].kind.Live? || h.cs[b].kind.Rec?) ==> SamePayload(h.m, m', b, h.cs[b].size)
    {
      PayloadMisses(h, m', holes, a, b);
    }
    assert Untouched(h.m, m', LiveOf(h.cs) - {a});
    BinnedInCs(h, holes);
    assert BodiesSame(h.m, m', h.ix.sizes) by {
      forall b | b in h.ix.sizes
        ensures BodySame(h.m, m', b, h.ix.sizes[b])
      {
        BinnedSize(h, holes, b);
      }
    }
    GoodParts(h, holes);
    StructMissed(h, m', holes, a);
    TagsFrame(h.m, m', h.cs);
    IndexFrame(h.m, m', h.smallmap, h.treemap, h.ix);
    PayloadKeepsSegs(h, m', holes, a);
    GoodFrom(h.(m := m'), holes);
  }

  lemma GoodParts(h: Heap, holes: set<int>)
    requires Good(h, holes)
    ensures TagsOk(h.m, h.cs) && IndexOk(h.m, h.smallmap, h.treemap, h.ix) && PartsOk(h, holes)
    ensures SegsOk(h.m, h.cs, h.segs) && DomainOk(h.m, h.segs) && EndsOk(h.cs, h.segs, h.top, h.topsize)
    ensures h.top == 0 <==> h.segs == []
  {
  }

  lemma GoodFrom(h: Heap, holes: set<int>)
    requires TagsOk(h.m, h.cs) && IndexOk(h.m, h.smallmap, h.treemap, h.ix) && PartsOk(h, holes)
    requires SegsOk(h.m, h.cs, h.segs) && DomainOk(h.m, h.segs) && EndsOk(h.cs, h.segs, h.top, h.topsize)
    requires h.top == 0 <==> h.segs == []
    ensures Good(h, holes)
  {
  }

  lemma StructMissed(h: Heap, m': Mem, holes: set<int>, a: int)
    requires Good(h, holes) && a in h.cs && (h.cs[a].kind.Live? || h.cs[a].kind.Rec?)
    requires PayloadWrites(h.m, m', a, h.cs[a].size)
    ensures BinsSame(h.m, m') && SameRecord(h.m, m', SEG) && DomainOk(m', h.segs)
  {
    hide TagsOk, IndexOk, PartsOk, SegsOk, EndsOk;
    ReadTags(h, holes, a);
  }

  lemma PayloadKeepsSegs(h: Heap, m': Mem, holes: set<int>, a: int)
    requires Good(h, holes) && a in h.cs && h.cs[a].kind.Live? && PayloadWrites(h.m, m', a, h.cs[a].size)
    ensures SegsOk(m', h.cs, h.segs)
  {
    hide TagsOk, IndexOk, PartsOk, DomainOk, EndsOk, RecordOk, SameRecord, PayloadWrites;
    StructMissed(h, m', holes, a);
    forall i | 0 <= i < |h.segs|
      ensures SameRecord(h.m, m', h.segs[i].rec) && SegOk(h.cs, h.segs[i], i == 0)
    {
      assert SegOk(h.cs, h.segs[i], i == 0);
      if i > 0 {
        var r := h.segs[i].rec - MEM_OFFSET;
        PayloadMisses(h, m', holes, a, r);
        RecordPayload(h.m, m', h.cs, r);
      }
    }
    hide Good, SegOk;
    GoodParts(h, holes);
    SegsFrame(h.m, m', h.cs, h.cs, h.segs);
  }
}
