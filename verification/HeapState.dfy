/**
 The whole state of the allocator as a value, its invariant, and how the three kinds of steps keep it: writes of the
 free-chunk index, retiling a run of chunks, and moving chunks in and out of the index.
 */
module HeapState {
  import opened Words
  import opened Memory
  import opened SizeClasses
  import opened FreeIndex
  import opened IndexReads
  import opened Tiling

  /** A segment and the address of the record that describes it. */
  datatype Seg = Seg(base: int, size: int, rec: int)

  datatype Heap = Heap(
    m: Mem,
    smallmap: bv32,
    treemap: bv32,
    ix: Index,
    cs: map<int, Chunk>,
    segs: seq<Seg>,
    dv: int,
    dvsize: int,
    top: int,
    topsize: int)

  // ---------- every free chunk is in one place ----------

  /** A binned chunk is a free chunk of that size, and neither the designated victim nor in transit. */
  ghost predicate BinnedOk(cs: map<int, Chunk>, sizes: map<int, int>, dv: int, holes: set<int>) {
    forall a :: a in sizes ==>
      a in cs && cs[a].kind.Free? && sizes[a] == cs[a].size && a != dv && a !in holes
  }

  /** Each free chunk is in a bin, or is the designated victim, or is one of the `holes` an operation is moving. */
  ghost predicate FreePlaced(cs: map<int, Chunk>, sizes: map<int, int>, dv: int, holes: set<int>) {
    && (forall a :: a in cs && cs[a].kind.Free? ==> a in sizes || a == dv || a in holes)
    && (forall a :: a in holes ==> a in cs && cs[a].kind.Free? && a != dv)
  }

  ghost predicate VictimOk(cs: map<int, Chunk>, dv: int, dvsize: int) {
    && (dv != 0 ==> dv in cs && cs[dv].kind.Free? && cs[dv].size == dvsize)
    && (dv == 0 ==> dvsize == 0)
  }

  ghost predicate TopOk(cs: map<int, Chunk>, top: int, topsize: int) {
    && (top != 0 ==> top in cs && cs[top].kind.Top? && cs[top].size == topsize)
    && (top == 0 ==> topsize == 0 && cs == map[])
    && (forall a :: a in cs && cs[a].kind.Top? ==> a == top)
  }

  ghost predicate PartsOk(h: Heap, holes: set<int>) {
    && BinnedOk(h.cs, h.ix.sizes, h.dv, holes)
    && FreePlaced(h.cs, h.ix.sizes, h.dv, holes)
    && VictimOk(h.cs, h.dv, h.dvsize)
    && TopOk(h.cs, h.top, h.topsize)
  }

  // ---------- segments ----------

  predicate InSeg(s: Seg, w: int) { s.base <= w < s.base + s.size }

  predicate InStruct(w: int) { SMALLBINS <= w < STRUCT_END }

  ghost predicate RecordOk(m: Mem, segs: seq<Seg>, i: int)
    requires 0 <= i < |segs|
  {
    var r := segs[i].rec;
    && r in m && m[r] == segs[i].base
    && r + SEG_SIZE in m && m[r + SEG_SIZE] == segs[i].size
    && r + SEG_NEXT in m && m[r + SEG_NEXT] == (if i + 1 < |segs| then segs[i + 1].rec else 0)
    && r + SEG_FLAGS in m && m[r + SEG_FLAGS] == 0
  }

  /** The head segment ends in the reserve behind top; every other one ends in its own record and fenceposts. */
  ghost predicate SegOk(cs: map<int, Chunk>, s: Seg, isHead: bool) {
    && HEAP_START <= s.base && s.base % 16 == 0 && s.size % 16 == 0 && s.base + s.size < WORD_LIMIT
    && s.base in cs && cs[s.base].first
    && (isHead ==>
          && s.rec == SEG
          && var f := s.base + s.size - TOP_FOOT_SIZE;
          s.base < f && f in cs && cs[f].kind.Foot?)
    && (!isHead ==>
          var r := s.rec - MEM_OFFSET;
          && s.base <= r && r in cs && cs[r].kind.Rec?
          && r + RECORD_SIZE in cs && cs[r + RECORD_SIZE].kind.Fence?
          && r + RECORD_SIZE + cs[r + RECORD_SIZE].size == s.base + s.size)
  }

  predicate SegsApart(s: Seg, t: Seg) { s.base + s.size <= t.base || t.base + t.size <= s.base }

  ghost predicate SegsOk(m: Mem, cs: map<int, Chunk>, segs: seq<Seg>) {
    && (forall i :: 0 <= i < |segs| ==> RecordOk(m, segs, i))
    && (forall i :: 0 <= i < |segs| ==> SegOk(cs, segs[i], i == 0))
    && (forall i, j :: 0 <= i < j < |segs| ==> SegsApart(segs[i], segs[j]))
    && (segs == [] ==>
          && SEG in m && m[SEG] == 0 && SEG + SEG_SIZE in m && m[SEG + SEG_SIZE] == 0
          && SEG + SEG_NEXT in m && m[SEG + SEG_NEXT] == 0 && SEG + SEG_FLAGS in m && m[SEG + SEG_FLAGS] == 0)
  }

  ghost predicate EndsSegment(segs: seq<Seg>, w: int) {
    exists i :: 0 <= i < |segs| && w == segs[i].base + segs[i].size
  }

  /** Fences and the reserve end their segments, and top is the last chunk of the head segment. */
  ghost predicate EndsOk(cs: map<int, Chunk>, segs: seq<Seg>, top: int, topsize: int) {
    && (forall a :: a in cs && Ends(cs[a].kind) ==> EndsSegment(segs, a + cs[a].size))
    && (segs != [] ==> segs[0].base <= top && top + topsize + TOP_FOOT_SIZE == segs[0].base + segs[0].size)
  }

  /** The held memory is the allocator's struct and the segments, nothing else. */
  ghost predicate DomainOk(m: Mem, segs: seq<Seg>) {
    && (forall w :: InStruct(w) ==> w in m)
    && (forall i :: 0 <= i < |segs| ==> Held(m, segs[i].base, segs[i].base + segs[i].size))
    && (forall w :: w in m ==> InStruct(w) || exists i :: 0 <= i < |segs| && InSeg(segs[i], w))
  }

  // ---------- the invariant ----------

  /** The invariant, with `holes` the free chunks that are in no bin because an operation has them in hand. */
  ghost predicate Good(h: Heap, holes: set<int>) {
    && TagsOk(h.m, h.cs)
    && IndexOk(h.m, h.smallmap, h.treemap, h.ix)
    && PartsOk(h, holes)
    && SegsOk(h.m, h.cs, h.segs)
    && DomainOk(h.m, h.segs)
    && EndsOk(h.cs, h.segs, h.top, h.topsize)
    && (h.top == 0 <==> h.segs == [])
  }

  // ---------- writes of the index ----------

  /** Link words lie strictly inside free chunks, so index writes miss every head, foot and payload word. */
  lemma LinkMisses(m: Mem, m': Mem, cs: map<int, Chunk>, sizes: map<int, int>, a: int, w: int)
    requires TagsOk(m, cs) && OnlyLinks(m, m', sizes)
    requires forall b :: b in sizes ==> b in cs && cs[b].kind.Free? && sizes[b] == cs[b].size
    requires a in cs && HEAP_START <= w && w in m
    requires w == a || w == a + HEAD || (!cs[a].kind.Free? && a + PREV <= w < a + cs[a].size)
    ensures w in m' && m'[w] == m[w]
  {
    hide OnlyLinks, TagsOk, NextOk, PrevOk, Held;
    assert m'.Keys == m.Keys && (m'[w] != m[w] ==> IsLink(sizes, w)) by { ChangedIsLink(m, m', sizes, w); }
    ChunkAt(m, cs, a);
    forall b | b in sizes
      ensures w < b + PREV || b + LinkEnd(sizes[b]) <= w
    {
      ChunkAt(m, cs, b);
      Beside(m, cs, a, b);
    }
  }

  lemma ChangedIsLink(m: Mem, m': Mem, sizes: map<int, int>, w: int)
    requires OnlyLinks(m, m', sizes) && w in m
    ensures m'.Keys == m.Keys
    ensures m'[w] != m[w] ==> w < SEG || IsLink(sizes, w)
  {
    hide IsLink;
  }

  ghost predicate FreeSizes(cs: map<int, Chunk>, sizes: map<int, int>) {
    forall b :: b in sizes ==> b in cs && cs[b].kind.Free? && sizes[b] == cs[b].size
  }

  lemma LinksKeepChunk(m: Mem, m': Mem, cs: map<int, Chunk>, sizes: map<int, int>, a: int)
    requires TagsOk(m, cs) && OnlyLinks(m, m', sizes) && FreeSizes(cs, sizes) && a in cs
    ensures ChunkOk(m', cs, a)
  {
    hide OnlyLinks, TagsOk, FreeSizes, KindOk, PinOk, HeadWord;
    var n := a + cs[a].size;
    ChunkAt(m, cs, a);
    FootMisses(m, m', cs, sizes, a, a);
    SameKeys(m, m', sizes);
    HeadMisses(m, m', cs, sizes, a);
    if n in cs {
      FootMisses(m, m', cs, sizes, n, n);
    }
  }

  lemma SameKeys(m: Mem, m': Mem, sizes: map<int, int>)
    requires OnlyLinks(m, m', sizes)
    ensures m'.Keys == m.Keys
  {
  }

  lemma HeadMisses(m: Mem, m': Mem, cs: map<int, Chunk>, sizes: map<int, int>, a: int)
    requires TagsOk(m, cs) && OnlyLinks(m, m', sizes) && FreeSizes(cs, sizes) && a in cs
    ensures a + HEAD in m && a + HEAD in m' && m'[a + HEAD] == m[a + HEAD]
  {
    hide OnlyLinks, TagsOk, NextOk, PrevOk;
    ChunkAt(m, cs, a);
    LinkMisses(m, m', cs, sizes, a, a + HEAD);
  }

  lemma LinksKeepTags(m: Mem, m': Mem, cs: map<int, Chunk>, sizes: map<int, int>)
    requires TagsOk(m, cs) && OnlyLinks(m, m', sizes) && FreeSizes(cs, sizes)
    ensures TagsOk(m', cs)
  {
    forall a | a in cs
      ensures ChunkOk(m', cs, a)
    {
      hide OnlyLinks, TagsOk, ChunkOk;
      LinksKeepChunk(m, m', cs, sizes, a);
    }
    hide OnlyLinks, ChunkOk;
  }

  lemma LinksKeepPayload(m: Mem, m': Mem, cs: map<int, Chunk>, sizes: map<int, int>, a: int)
    requires TagsOk(m, cs) && OnlyLinks(m, m', sizes) && FreeSizes(cs, sizes)
    requires a in cs && (cs[a].kind.Live? || cs[a].kind.Rec?)
    ensures SamePayload(m, m', a, cs[a].size)
  {
    hide OnlyLinks, TagsOk, IsLink, PrevOk;
    ChunkAt(m, cs, a);
    var n := a + cs[a].size;
    ChunkAt(m, cs, n);
    forall w | Payload(a, cs[a].size, w)
      ensures w in m && w in m' && m'[w] == m[w]
    {
      if w < n {
        LinkMisses(m, m', cs, sizes, a, w);
      } else {
        FootMisses(m, m', cs, sizes, n, w);
      }
    }
  }

  /** The eight bytes of a chunk's `prev_foot`. */
  lemma FootMisses(m: Mem, m': Mem, cs: map<int, Chunk>, sizes: map<int, int>, n: int, w: int)
    requires TagsOk(m, cs) && OnlyLinks(m, m', sizes) && FreeSizes(cs, sizes)
    requires n in cs && n <= w < n + HEAD
    ensures w in m && w in m' && m'[w] == m[w]
  {
    hide OnlyLinks, TagsOk, NextOk, PrevOk;
    ChunkAt(m, cs, n);
    assert m'.Keys == m.Keys && (m'[w] != m[w] ==> IsLink(sizes, w)) by { ChangedIsLink(m, m', sizes, w); }
    forall b | b in sizes
      ensures w < b + PREV || b + LinkEnd(sizes[b]) <= w
    {
      ChunkAt(m, cs, b);
      Beside(m, cs, n, b);
    }
  }

  lemma LinksKeepLive(m: Mem, m': Mem, cs: map<int, Chunk>, sizes: map<int, int>)
    requires TagsOk(m, cs) && OnlyLinks(m, m', sizes) && FreeSizes(cs, sizes)
    ensures Untouched(m, m', LiveOf(cs))
  {
    forall a | a in LiveOf(cs)
      ensures SamePayload(m, m', a, LiveOf(cs)[a].size)
    {
      hide OnlyLinks, TagsOk, SamePayload;
      LinksKeepPayload(m, m', cs, sizes, a);
    }
  }

  ghost predicate SameRecord(m: Mem, m': Mem, r: int) {
    && (r in m ==> SameAt(m, m', r))
    && (r + SEG_SIZE in m ==> SameAt(m, m', r + SEG_SIZE))
    && (r + SEG_NEXT in m ==> SameAt(m, m', r + SEG_NEXT))
    && (r + SEG_FLAGS in m ==> SameAt(m, m', r + SEG_FLAGS))
  }

  /** Segments survive writes that miss their records. */
  lemma SegsFrame(m: Mem, m': Mem, cs: map<int, Chunk>, cs': map<int, Chunk>, segs: seq<Seg>)
    requires SegsOk(m, cs, segs)
    requires forall i :: 0 <= i < |segs| ==> SameRecord(m, m', segs[i].rec)
    requires segs == [] ==> SameRecord(m, m', SEG)
    requires forall i :: 0 <= i < |segs| ==> SegOk(cs', segs[i], i == 0)
    ensures SegsOk(m', cs', segs)
  {
    forall i | 0 <= i < |segs|
      ensures RecordOk(m', segs, i)
    {
      hide SegOk;
      assert RecordOk(m, segs, i) && SameRecord(m, m', segs[i].rec);
    }
    hide RecordOk, SegOk;
  }

  lemma LinksKeepSegs(m: Mem, m': Mem, cs: map<int, Chunk>, segs: seq<Seg>, sizes: map<int, int>)
    requires TagsOk(m, cs) && OnlyLinks(m, m', sizes) && FreeSizes(cs, sizes)
    requires SegsOk(m, cs, segs)
    ensures SegsOk(m', cs, segs)
  {
    hide TagsOk, OnlyLinks, FreeSizes, RecordOk, SegOk, SameRecord;
    forall i | 0 <= i < |segs|
      ensures SameRecord(m, m', segs[i].rec) && SegOk(cs, segs[i], i == 0)
    {
      assert SegOk(cs, segs[i], i == 0);
      LinksKeepRecord(m, m', cs, sizes, segs[i], i == 0);
    }
    StructRecord(m, m', cs, sizes);
    hide SegsOk;
    SegsFrame(m, m', cs, cs, segs);
  }

  lemma StructRecord(m: Mem, m': Mem, cs: map<int, Chunk>, sizes: map<int, int>)
    requires TagsOk(m, cs) && OnlyLinks(m, m', sizes) && FreeSizes(cs, sizes)
    ensures SameRecord(m, m', SEG)
  {
    hide TagsOk, OnlyLinks, FreeSizes;
    StructHigh(m, m', cs, sizes, SEG);
    StructHigh(m, m', cs, sizes, SEG + SEG_SIZE);
    StructHigh(m, m', cs, sizes, SEG + SEG_NEXT);
    StructHigh(m, m', cs, sizes, SEG + SEG_FLAGS);
  }

  /** The first segment record, in the allocator's struct, is not a link word. */
  lemma StructHigh(m: Mem, m': Mem, cs: map<int, Chunk>, sizes: map<int, int>, w: int)
    requires TagsOk(m, cs) && OnlyLinks(m, m', sizes) && FreeSizes(cs, sizes)
    requires SEG <= w < HEAP_START
    ensures w in m ==> w in m' && m'[w] == m[w]
  {
    hide OnlyLinks, TagsOk, NextOk, PrevOk, Held;
    if w in m {
      ChangedIsLink(m, m', sizes, w);
      forall b | b in sizes
        ensures w < b + PREV
      {
        ChunkAt(m, cs, b);
      }
    }
  }

  lemma LinksKeepRecord(m: Mem, m': Mem, cs: map<int, Chunk>, sizes: map<int, int>, s: Seg, isHead: bool)
    requires TagsOk(m, cs) && OnlyLinks(m, m', sizes) && FreeSizes(cs, sizes) && SegOk(cs, s, isHead)
    ensures SameRecord(m, m', s.rec)
  {
    hide OnlyLinks, TagsOk, FreeSizes;
    if isHead {
      StructRecord(m, m', cs, sizes);
    } else {
      var r := s.rec - MEM_OFFSET;
      LinksKeepPayload(m, m', cs, sizes, r);
      RecordPayload(m, m', cs, r);
    }
  }

  lemma RecordPayload(m: Mem, m': Mem, cs: map<int, Chunk>, r: int)
    requires TagsOk(m, cs) && r in cs && cs[r].kind.Rec? && SamePayload(m, m', r, cs[r].size)
    ensures SameRecord(m, m', r + MEM_OFFSET)
  {
    hide TagsOk, NextOk, PrevOk;
    ChunkAt(m, cs, r);
    assert Payload(r, cs[r].size, r + MEM_OFFSET);
    assert Payload(r, cs[r].size, r + MEM_OFFSET + SEG_SIZE);
    assert Payload(r, cs[r].size, r + MEM_OFFSET + SEG_NEXT);
    assert Payload(r, cs[r].size, r + MEM_OFFSET + SEG_FLAGS);
  }

  lemma LinksKeepDomain(m: Mem, m': Mem, segs: seq<Seg>, sizes: map<int, int>)
    requires OnlyLinks(m, m', sizes) && DomainOk(m, segs)
    ensures DomainOk(m', segs)
  {
    hide IsLink;
  }

  // ---------- retiling a run ----------

  /** The starts of the chunks in the run. */
  function Run(cs: map<int, Chunk>, lo: int, hi: int): set<int> {
    set a | a in cs && lo <= a < hi
  }

  lemma LocalKeepsIndexed(m: Mem, m': Mem, cs: map<int, Chunk>, lo: int, hi: int, a: int)
    requires TagsOk(m, cs) && Local(m, m', lo, hi) && lo in cs && hi in cs && a in cs && (a < lo || a >= hi) && lo < hi
    requires cs[a].kind.Free? && FreeWords(m, a, cs[a].size)
    requires a == hi ==> m'[hi + HEAD] == m[hi + HEAD]
    ensures FreeWords(m', a, cs[a].size) && SameRingWords(m, m', a)
    ensures !IsSmall(cs[a].size) ==> SameTreeWords(m, m', a)
  {
    hide TagsOk;
    Beside(m, cs, a, lo);
    Beside(m, cs, a, hi);
    ChunkAt(m, cs, hi);
    hide ChunkOk;
    assert m'.Keys == m.Keys;
  }

  lemma LocalKeepsStruct(m: Mem, m': Mem, cs: map<int, Chunk>, lo: int, hi: int, w: int)
    requires TagsOk(m, cs) && Local(m, m', lo, hi) && lo in cs && w in m && w < HEAP_START
    ensures SameAt(m, m', w)
  {
    hide TagsOk;
    ChunkAt(m, cs, lo);
  }

  /** Retiling around the binned chunks leaves the index alone. */
  lemma LocalKeepsIndex(m: Mem, m': Mem, smallmap: bv32, treemap: bv32, ix: Index, cs: map<int, Chunk>, lo: int,
                        hi: int)
    requires IndexOk(m, smallmap, treemap, ix) && TagsOk(m, cs) && FreeSizes(cs, ix.sizes)
    requires Local(m, m', lo, hi) && lo in cs && hi in cs && lo < hi
    requires forall a :: a in ix.sizes ==> a < lo || a >= hi
    requires hi in ix.sizes ==> m'[hi + HEAD] == m[hi + HEAD]
    ensures IndexOk(m', smallmap, treemap, ix)
  {
    hide TagsOk, SizesOk, SmallOk, TrieOk, Local, IsSmall;
    TrieOf(m, smallmap, treemap, ix);
    forall a | a in ix.sizes
      ensures FreeWords(m', a, ix.sizes[a]) && SameRingWords(m, m', a)
      ensures !IsSmall(ix.sizes[a]) ==> SameTreeWords(m, m', a)
    {
      hide IndexOk, FreeWords, SameRingWords, SameTreeWords;
      ReadChunk(m, ix.sizes, a);
      LocalKeepsIndexed(m, m', cs, lo, hi, a);
    }
    assert SizesOk(m', ix.sizes) by { SameSizes(m, m', ix.sizes); }
    hide FreeSizes, FreeWords;
    forall i | 0 <= i < 32
      ensures SameRingWords(m, m', SmallBinAt(i)) && SameAt(m, m', TreeBinAt(i))
    {
      hide IndexOk;
      ReadSmallBin(m, smallmap, treemap, ix, i);
      ReadTreeBin(m, smallmap, treemap, ix, i);
      LocalKeepsStruct(m, m', cs, lo, hi, SmallBinAt(i) + PREV);
      LocalKeepsStruct(m, m', cs, lo, hi, SmallBinAt(i) + NEXT);
      LocalKeepsStruct(m, m', cs, lo, hi, TreeBinAt(i));
    }
    assert SmallOk(m', smallmap, ix) by { hide IndexOk, SameRingWords; SmallFrame(m, m', smallmap, ix, ix); }
    assert TrieOk(m', treemap, ix) by {
      hide IndexOk, SameRingWords, SameTreeWords, SameAt;
      LocatedOf(m, treemap, ix);
      LocatedSame(m, m', ix);
      TrieFrame(m, m', treemap, ix, ix);
    }
  }

  lemma LocatedSame(m: Mem, m': Mem, ix: Index)
    requires Located(ix)
    requires forall a :: a in ix.sizes ==>
      SameRingWords(m, m', a) && (!IsSmall(ix.sizes[a]) ==> SameTreeWords(m, m', a))
    ensures forall a :: a in ix.loc ==> SameChunk(m, m', ix, ix, a)
    ensures forall a :: a in ix.sizes && !IsSmall(ix.sizes[a]) ==> a in ix.loc
  {
    hide SameRingWords, SameTreeWords, IsSmall;
  }

  lemma SameSizes(m: Mem, m': Mem, sizes: map<int, int>)
    requires SizesOk(m, sizes) && forall a :: a in sizes ==> FreeWords(m', a, sizes[a])
    ensures SizesOk(m', sizes)
  {
    hide FreeWords;
  }

  /** Blocks outside the run keep their payload, although the run's first and last words border on theirs. */
  lemma LocalKeepsPayload(m: Mem, m': Mem, cs: map<int, Chunk>, lo: int, hi: int, a: int)
    requires TagsOk(m, cs) && Local(m, m', lo, hi) && lo in cs && hi in cs && lo < hi
    requires a in cs && (a < lo || a >= hi) && (cs[a].kind.Live? || cs[a].kind.Rec?)
    ensures SamePayload(m, m', a, cs[a].size)
  {
    hide TagsOk, PrevOk;
    ChunkAt(m, cs, a);
    ChunkAt(m, cs, a + cs[a].size);
    Beside(m, cs, a, lo);
  }

  lemma LocalKeepsLive(m: Mem, m': Mem, cs: map<int, Chunk>, lo: int, hi: int)
    requires TagsOk(m, cs) && Local(m, m', lo, hi) && lo in cs && hi in cs && lo < hi
    ensures Untouched(m, m', LiveOf(cs) - Run(cs, lo, hi))
  {
    var live := LiveOf(cs) - Run(cs, lo, hi);
    forall a | a in live
      ensures SamePayload(m, m', a, live[a].size)
    {
      hide TagsOk, SamePayload, Local;
      LocalKeepsPayload(m, m', cs, lo, hi, a);
    }
  }

  /** The live blocks after retiling: those outside the run, and the new ones. */
  lemma RetileLive(cs: map<int, Chunk>, lo: int, mid: int, hi: int, k1: Kind, k2: Kind)
    requires CanRetile(cs, lo, mid, hi, k1, k2)
    ensures
      var rest := LiveOf(cs) - Run(cs, lo, hi);
      var one := if k1.Live? then rest[lo := Block(mid - lo, k1.req)] else rest;
      LiveOf(Retile(cs, lo, mid, hi, k1, k2)) ==
        if mid < hi && k2.Live? then one[mid := Block(hi - mid, k2.req)] else one
  {
    assert lo in cs && hi in cs && lo < mid <= hi by { RetileBounds(cs, lo, mid, hi, k1, k2); }
    var cs' := Retile(cs, lo, mid, hi, k1, k2);
    var rest := LiveOf(cs) - Run(cs, lo, hi);
    var one := if k1.Live? then rest[lo := Block(mid - lo, k1.req)] else rest;
    var live := if mid < hi && k2.Live? then one[mid := Block(hi - mid, k2.req)] else one;
    forall a
      ensures a in LiveOf(cs') <==> a in live
      ensures a in live ==> LiveOf(cs')[a] == live[a]
    {
      hide CanRetile, Retile;
      RetileKeys(cs, lo, mid, hi, k1, k2, a);
      RetileKeys(cs, lo, mid, hi, k1, k2, hi);
    }
  }

  lemma RetileSeg(m: Mem, cs: map<int, Chunk>, lo: int, mid: int, hi: int, k1: Kind, k2: Kind, s: Seg, isHead: bool)
    requires TagsOk(m, cs) && CanRetile(cs, lo, mid, hi, k1, k2) && SegOk(cs, s, isHead)
    ensures SegOk(Retile(cs, lo, mid, hi, k1, k2), s, isHead)
  {
    hide TagsOk, Retile;
    RetileKeys(cs, lo, mid, hi, k1, k2, s.base);
    if isHead {
      RetileKeys(cs, lo, mid, hi, k1, k2, s.base + s.size - TOP_FOOT_SIZE);
    } else {
      var r := s.rec - MEM_OFFSET;
      RetileKeys(cs, lo, mid, hi, k1, k2, r);
      RetileKeys(cs, lo, mid, hi, k1, k2, r + RECORD_SIZE);
    }
  }

  lemma LocalKeepsRecord(m: Mem, m': Mem, cs: map<int, Chunk>, lo: int, mid: int, hi: int, k1: Kind, k2: Kind, s: Seg,
                         isHead: bool)
    requires TagsOk(m, cs) && CanRetile(cs, lo, mid, hi, k1, k2) && Local(m, m', lo, hi) && SegOk(cs, s, isHead)
    requires lo in cs && hi in cs && lo < hi
    ensures SameRecord(m, m', s.rec)
  {
    hide TagsOk, Local, SameRecord, KindOk;
    if isHead {
      StructRecordLocal(m, m', cs, lo, hi);
    } else {
      var r := s.rec - MEM_OFFSET;
      assert r < lo || r >= hi;
      hide CanRetile;
      LocalKeepsPayload(m, m', cs, lo, hi, r);
      RecordPayload(m, m', cs, r);
    }
  }

  lemma StructRecordLocal(m: Mem, m': Mem, cs: map<int, Chunk>, lo: int, hi: int)
    requires TagsOk(m, cs) && Local(m, m', lo, hi) && lo in cs
    ensures SameRecord(m, m', SEG)
  {
    hide TagsOk;
    ChunkAt(m, cs, lo);
  }

  lemma RetileSegs(m: Mem, m': Mem, cs: map<int, Chunk>, lo: int, mid: int, hi: int, k1: Kind, k2: Kind, segs: seq<Seg>)
    requires TagsOk(m, cs) && CanRetile(cs, lo, mid, hi, k1, k2) && Local(m, m', lo, hi) && SegsOk(m, cs, segs)
    ensures SegsOk(m', Retile(cs, lo, mid, hi, k1, k2), segs)
  {
    assert lo in cs && hi in cs && lo < hi by { RetileBounds(cs, lo, mid, hi, k1, k2); }
    var cs' := Retile(cs, lo, mid, hi, k1, k2);
    forall i | 0 <= i < |segs|
      ensures SameRecord(m, m', segs[i].rec) && SegOk(cs', segs[i], i == 0)
    {
      assert SegOk(cs, segs[i], i == 0);
      hide TagsOk, CanRetile, Local, SegsOk, SegOk, Retile, SameRecord;
      RetileSeg(m, cs, lo, mid, hi, k1, k2, segs[i], i == 0);
      LocalKeepsRecord(m, m', cs, lo, mid, hi, k1, k2, segs[i], i == 0);
    }
    StructRecordLocal(m, m', cs, lo, hi);
    hide TagsOk, CanRetile, Local, SegsOk, SegOk, Retile, SameRecord;
    SegsFrame(m, m', cs, cs', segs);
  }

  // ---------- where the free chunks are after retiling ----------

  /** The free chunks that are in no bin. */
  function Loose(dv: int, holes: set<int>): set<int> {
    if dv == 0 then holes else holes + {dv}
  }

  function NewFree(lo: int, mid: int, hi: int, k1: Kind, k2: Kind): set<int> {
    (if k1.Free? then {lo} else {}) + (if mid < hi && k2.Free? then {mid} else {})
  }

  ghost predicate TopMoves(h: Heap, h': Heap, lo: int, mid: int, hi: int, k1: Kind, k2: Kind) {
    var last := if mid == hi then k1 else k2;
    if last.Top? then
      && lo <= h.top < hi
      && h'.top == (if mid == hi then lo else mid) && h'.topsize == hi - h'.top
    else h'.top == h.top && h'.topsize == h.topsize && !(lo <= h.top < hi)
  }

  ghost predicate VictimMoves(h: Heap, h': Heap, lo: int, mid: int, hi: int, k1: Kind, k2: Kind) {
    if h'.dv == 0 then h'.dvsize == 0
    else if h'.dv in NewFree(lo, mid, hi, k1, k2) then
      h'.dvsize == (if h'.dv == lo then mid - lo else hi - mid)
    else h'.dv == h.dv && h'.dvsize == h.dvsize && !(lo <= h.dv < hi)
  }

  lemma RetileParts(h: Heap, h': Heap, lo: int, mid: int, hi: int, k1: Kind, k2: Kind, holes: set<int>,
                    holes': set<int>)
    requires PartsOk(h, holes) && CanRetile(h.cs, lo, mid, hi, k1, k2) && lo > 0 && 0 !in h.cs
    requires h'.cs == Retile(h.cs, lo, mid, hi, k1, k2) && h'.ix == h.ix
    requires forall a :: a in h.ix.sizes ==> a < lo || a >= hi
    requires Loose(h'.dv, holes') == (Loose(h.dv, holes) - Run(h.cs, lo, hi)) + NewFree(lo, mid, hi, k1, k2)
    requires h'.dv !in holes'
    requires VictimMoves(h, h', lo, mid, hi, k1, k2) && TopMoves(h, h', lo, mid, hi, k1, k2)
    ensures PartsOk(h', holes')
  {
    assert lo in h.cs && hi in h.cs && lo < mid <= hi by { RetileBounds(h.cs, lo, mid, hi, k1, k2); }
    hide Retile, CanRetile, BinnedOk, FreePlaced, VictimOk, TopOk, TopMoves, VictimMoves, Loose, NewFree, Run;
    RetilePlaced(h, h', lo, mid, hi, k1, k2, holes, holes');
    RetileBinned(h, h', lo, mid, hi, k1, k2, holes, holes');
    RetileTop(h, h', lo, mid, hi, k1, k2);
    RetileVictim(h, h', lo, mid, hi, k1, k2);
  }

  lemma RetileTop(h: Heap, h': Heap, lo: int, mid: int, hi: int, k1: Kind, k2: Kind)
    requires TopOk(h.cs, h.top, h.topsize) && CanRetile(h.cs, lo, mid, hi, k1, k2) && lo > 0
    requires h'.cs == Retile(h.cs, lo, mid, hi, k1, k2) && TopMoves(h, h', lo, mid, hi, k1, k2)
    ensures TopOk(h'.cs, h'.top, h'.topsize)
  {
    hide Retile, KindOk;
    assert lo in h.cs && h.top != 0;
    RetileKeys(h.cs, lo, mid, hi, k1, k2, lo);
    RetileKeys(h.cs, lo, mid, hi, k1, k2, mid);
    RetileKeys(h.cs, lo, mid, hi, k1, k2, h.top);
    forall a | a in h'.cs && h'.cs[a].kind.Top?
      ensures a == h'.top
    {
      RetileKeys(h.cs, lo, mid, hi, k1, k2, a);
    }
  }

  lemma RetileVictim(h: Heap, h': Heap, lo: int, mid: int, hi: int, k1: Kind, k2: Kind)
    requires VictimOk(h.cs, h.dv, h.dvsize) && CanRetile(h.cs, lo, mid, hi, k1, k2)
    requires h'.cs == Retile(h.cs, lo, mid, hi, k1, k2) && VictimMoves(h, h', lo, mid, hi, k1, k2)
    ensures VictimOk(h'.cs, h'.dv, h'.dvsize)
  {
    hide Retile, KindOk;
    RetileKeys(h.cs, lo, mid, hi, k1, k2, lo);
    RetileKeys(h.cs, lo, mid, hi, k1, k2, h'.dv);
  }

  lemma RetileBinned(h: Heap, h': Heap, lo: int, mid: int, hi: int, k1: Kind, k2: Kind, holes: set<int>,
                     holes': set<int>)
    requires BinnedOk(h.cs, h.ix.sizes, h.dv, holes) && CanRetile(h.cs, lo, mid, hi, k1, k2)
    requires h'.cs == Retile(h.cs, lo, mid, hi, k1, k2) && h'.ix == h.ix && 0 !in h.cs
    requires forall a :: a in h.ix.sizes ==> a < lo || a >= hi
    requires Loose(h'.dv, holes') == (Loose(h.dv, holes) - Run(h.cs, lo, hi)) + NewFree(lo, mid, hi, k1, k2)
    ensures BinnedOk(h'.cs, h'.ix.sizes, h'.dv, holes')
  {
    assert lo < mid <= hi by { RetileBounds(h.cs, lo, mid, hi, k1, k2); }
    forall a | a in h'.ix.sizes
      ensures a in h'.cs && h'.cs[a].kind.Free? && h'.ix.sizes[a] == h'.cs[a].size && a != h'.dv && a !in holes'
    {
      hide Retile, CanRetile, Run;
      RetileKeys(h.cs, lo, mid, hi, k1, k2, a);
      assert a !in Loose(h.dv, holes) && a !in NewFree(lo, mid, hi, k1, k2);
      assert a !in Loose(h'.dv, holes');
    }
  }

  lemma RetilePlaced(h: Heap, h': Heap, lo: int, mid: int, hi: int, k1: Kind, k2: Kind, holes: set<int>,
                     holes': set<int>)
    requires FreePlaced(h.cs, h.ix.sizes, h.dv, holes) && CanRetile(h.cs, lo, mid, hi, k1, k2)
    requires VictimOk(h.cs, h.dv, h.dvsize) && 0 !in h.cs
    requires h'.cs == Retile(h.cs, lo, mid, hi, k1, k2) && h'.ix == h.ix
    requires Loose(h'.dv, holes') == (Loose(h.dv, holes) - Run(h.cs, lo, hi)) + NewFree(lo, mid, hi, k1, k2)
    requires h'.dv !in holes'
    ensures FreePlaced(h'.cs, h'.ix.sizes, h'.dv, holes')
  {
    forall a | a in h'.cs && h'.cs[a].kind.Free?
      ensures a in h'.ix.sizes || a == h'.dv || a in holes'
    {
      hide Retile, CanRetile;
      RetileKeys(h.cs, lo, mid, hi, k1, k2, a);
      RetileKeys(h.cs, lo, mid, hi, k1, k2, lo);
      if a in NewFree(lo, mid, hi, k1, k2) {
        assert a in Loose(h'.dv, holes');
      } else if a !in h.ix.sizes {
        assert a in Loose(h.dv, holes) && a !in Run(h.cs, lo, hi);
        assert a in Loose(h'.dv, holes');
      }
    }
    forall a | a in holes'
      ensures a in h'.cs && h'.cs[a].kind.Free? && a != h'.dv
    {
      hide Retile, CanRetile;
      assert a in Loose(h'.dv, holes');
      RetileKeys(h.cs, lo, mid, hi, k1, k2, a);
      RetileKeys(h.cs, lo, mid, hi, k1, k2, lo);
    }
  }

  /** Retiling keeps the invariant. */
  lemma RetileGood(h: Heap, h': Heap, lo: int, mid: int, hi: int, k1: Kind, k2: Kind, holes: set<int>, holes': set<int>)
    requires Good(h, holes) && CanRetile(h.cs, lo, mid, hi, k1, k2) && Held(h.m, lo, hi)
    requires h'.cs == Retile(h.cs, lo, mid, hi, k1, k2)
    requires h'.ix == h.ix && h'.segs == h.segs && h'.smallmap == h.smallmap && h'.treemap == h.treemap
    requires Local(h.m, h'.m, lo, hi) && TagsWritten(h'.m, h.cs, lo, mid, hi, k1, k2)
    requires forall a :: a in h.ix.sizes ==> a < lo || a >= hi
    requires Loose(h'.dv, holes') == (Loose(h.dv, holes) - Run(h.cs, lo, hi)) + NewFree(lo, mid, hi, k1, k2)
    requires h'.dv !in holes'
    requires VictimMoves(h, h', lo, mid, hi, k1, k2) && TopMoves(h, h', lo, mid, hi, k1, k2)
    ensures Good(h', holes')
    ensures Untouched(h.m, h'.m, LiveOf(h.cs) - Run(h.cs, lo, hi))
  {
    assert lo in h.cs && hi in h.cs && lo < mid <= hi by { RetileBounds(h.cs, lo, mid, hi, k1, k2); }
    hide TagsOk, IndexOk, SegsOk, EndsOk;
    assert FreeSizes(h.cs, h.ix.sizes) by { BinnedAreFree(h, holes); }
    assert lo > 0 && 0 !in h.cs by { NoNull(h.m, h.cs); }
    assert hi in h.ix.sizes ==> h'.m[hi + HEAD] == h.m[hi + HEAD] by { BinnedHeadStays(h, h', lo, mid, hi, k1, k2); }
    assert PartsOk(h', holes') by { hide DomainOk; RetileParts(h, h', lo, mid, hi, k1, k2, holes, holes'); }
    assert DomainOk(h'.m, h'.segs) by { LocalDomain(h.m, h'.m, lo, hi, h.segs); }
    assert h'.top == 0 <==> h.top == 0 by { TopStays(h, h', lo, mid, hi, k1, k2, holes); }
    assert EndsOk(h'.cs, h'.segs, h'.top, h'.topsize) by { RetileEnds(h, h', lo, mid, hi, k1, k2, holes); }
    hide PartsOk, DomainOk, EndsOk, CanRetile, Local, TagsWritten, Retile, TopMoves, VictimMoves, Loose, NewFree;
    RetileTags(h.m, h'.m, h.cs, lo, mid, hi, k1, k2);
    LocalKeepsIndex(h.m, h'.m, h.smallmap, h.treemap, h.ix, h.cs, lo, hi);
    RetileSegs(h.m, h'.m, h.cs, lo, mid, hi, k1, k2, h.segs);
    LocalKeepsLive(h.m, h'.m, h.cs, lo, hi);
  }

  lemma RetileEnds(h: Heap, h': Heap, lo: int, mid: int, hi: int, k1: Kind, k2: Kind, holes: set<int>)
    requires PartsOk(h, holes) && EndsOk(h.cs, h.segs, h.top, h.topsize) && SegsOk(h.m, h.cs, h.segs)
    requires CanRetile(h.cs, lo, mid, hi, k1, k2) && TopMoves(h, h', lo, mid, hi, k1, k2) && TagsOk(h.m, h.cs)
    requires h'.cs == Retile(h.cs, lo, mid, hi, k1, k2) && h'.segs == h.segs && (h.top == 0 <==> h.segs == [])
    ensures EndsOk(h'.cs, h'.segs, h'.top, h'.topsize)
  {
    hide TagsOk, Retile, BinnedOk, FreePlaced, VictimOk, EndsSegment, KindOk, Run;
    assert lo in h.cs && hi in h.cs && lo < mid <= hi by { RetileBounds(h.cs, lo, mid, hi, k1, k2); }
    forall a | a in h'.cs && Ends(h'.cs[a].kind)
      ensures EndsSegment(h'.segs, a + h'.cs[a].size)
    {
      RetileKeys(h.cs, lo, mid, hi, k1, k2, a);
      RetileKeys(h.cs, lo, mid, hi, k1, k2, lo);
    }
    if h.segs != [] {
      assert SegOk(h.cs, h.segs[0], true);
      if h'.top != h.top || h'.topsize != h.topsize {
        TopEnds(h, lo, hi);
      }
    }
  }

  /** A run that holds top ends with it. */
  lemma TopEnds(h: Heap, lo: int, hi: int)
    requires TagsOk(h.m, h.cs) && h.top in h.cs && h.cs[h.top].kind.Top? && hi in h.cs && lo <= h.top < hi
    requires h.cs[hi].kind.Foot? && forall a :: a in h.cs && lo <= a < hi ==> !h.cs[a].kind.Foot?
    ensures hi == h.top + h.cs[h.top].size
  {
    hide TagsOk;
    ChunkAt(h.m, h.cs, h.top);
    Beside(h.m, h.cs, h.top, hi);
  }

  lemma NoNull(m: Mem, cs: map<int, Chunk>)
    requires TagsOk(m, cs)
    ensures forall a :: a in cs ==> HEAP_START <= a
  {
    forall a | a in cs
      ensures HEAP_START <= a
    {
      hide TagsOk;
      ChunkAt(m, cs, a);
    }
  }

  lemma BinnedAreFree(h: Heap, holes: set<int>)
    requires PartsOk(h, holes)
    ensures FreeSizes(h.cs, h.ix.sizes)
  {
  }

  lemma BinnedHeadStays(h: Heap, h': Heap, lo: int, mid: int, hi: int, k1: Kind, k2: Kind)
    requires TagsOk(h.m, h.cs) && FreeSizes(h.cs, h.ix.sizes) && CanRetile(h.cs, lo, mid, hi, k1, k2)
    requires TagsWritten(h'.m, h.cs, lo, mid, hi, k1, k2)
    ensures hi in h.ix.sizes ==> hi + HEAD in h.m && hi + HEAD in h'.m && h'.m[hi + HEAD] == h.m[hi + HEAD]
  {
    hide TagsOk, Retile;
    assert lo in h.cs && hi in h.cs && lo < mid <= hi by { RetileBounds(h.cs, lo, mid, hi, k1, k2); }
    ChunkAt(h.m, h.cs, hi);
    RetileKeys(h.cs, lo, mid, hi, k1, k2, hi);
  }

  lemma LocalDomain(m: Mem, m': Mem, lo: int, hi: int, segs: seq<Seg>)
    requires Local(m, m', lo, hi) && DomainOk(m, segs)
    ensures DomainOk(m', segs)
  {
  }

  lemma TopStays(h: Heap, h': Heap, lo: int, mid: int, hi: int, k1: Kind, k2: Kind, holes: set<int>)
    requires PartsOk(h, holes) && lo > 0 && lo < mid && lo in h.cs && TopMoves(h, h', lo, mid, hi, k1, k2)
    ensures h'.top == 0 <==> h.top == 0
  {
  }

  // ---------- moving chunks in and out of the index ----------

  /** Two states that differ in the index and its words only. */
  ghost predicate IndexStep(h: Heap, h': Heap) {
    && h'.cs == h.cs && h'.segs == h.segs && h'.dv == h.dv && h'.dvsize == h.dvsize
    && h'.top == h.top && h'.topsize == h.topsize
    && IndexOk(h'.m, h'.smallmap, h'.treemap, h'.ix)
  }

  lemma IndexStepGood(h: Heap, h': Heap, sizes: map<int, int>, holes: set<int>, holes': set<int>)
    requires Good(h, holes) && IndexStep(h, h') && OnlyLinks(h.m, h'.m, sizes) && FreeSizes(h.cs, sizes)
    requires PartsOk(h', holes')
    ensures Good(h', holes') && Untouched(h.m, h'.m, LiveOf(h.cs))
  {
    hide TagsOk, IndexOk, SegsOk, DomainOk, EndsOk, PartsOk, OnlyLinks, FreeSizes, Untouched;
    LinksKeepTags(h.m, h'.m, h.cs, sizes);
    LinksKeepSegs(h.m, h'.m, h.cs, h.segs, sizes);
    LinksKeepDomain(h.m, h'.m, h.segs, sizes);
    LinksKeepLive(h.m, h'.m, h.cs, sizes);
  }

  lemma UnlinkedGood(h: Heap, h': Heap, a: int, holes: set<int>)
    requires Good(h, holes) && a in h.ix.sizes && IndexStep(h, h')
    requires h'.ix.sizes == h.ix.sizes - {a} && OnlyLinks(h.m, h'.m, h.ix.sizes)
    ensures Good(h', holes + {a}) && Untouched(h.m, h'.m, LiveOf(h.cs))
  {
    hide TagsOk, IndexOk, SegsOk, DomainOk, EndsOk, OnlyLinks;
    UnlinkedParts(h, h', a, holes);
    BinnedAreFree(h, holes);
    hide Good, OnlyLinks, PartsOk, IndexStep;
    IndexStepGood(h, h', h.ix.sizes, holes, holes + {a});
  }

  lemma UnlinkedParts(h: Heap, h': Heap, a: int, holes: set<int>)
    requires PartsOk(h, holes) && a in h.ix.sizes
    requires h'.cs == h.cs && h'.dv == h.dv && h'.dvsize == h.dvsize && h'.top == h.top && h'.topsize == h.topsize
    requires h'.ix.sizes == h.ix.sizes - {a}
    ensures PartsOk(h', holes + {a})
  {
    hide VictimOk, TopOk;
  }

  lemma InsertedParts(h: Heap, h': Heap, a: int, holes: set<int>)
    requires PartsOk(h, holes) && a in holes && a in h.cs
    requires h'.cs == h.cs && h'.dv == h.dv && h'.dvsize == h.dvsize && h'.top == h.top && h'.topsize == h.topsize
    requires h'.ix.sizes == h.ix.sizes[a := h.cs[a].size]
    ensures PartsOk(h', holes - {a})
  {
    hide VictimOk, TopOk;
  }

  lemma HoleFits(h: Heap, a: int, holes: set<int>)
    requires Good(h, holes) && a in holes
    ensures a in h.cs && h.cs[a].kind.Free? && CanAdd(h.m, h.ix, a, h.cs[a].size)
    ensures h.cs[a].size % 16 == 0 && 0 <= h.cs[a].size && FreeSizes(h.cs, h.ix.sizes[a := h.cs[a].size])
  {
    hide TagsOk, IndexOk, SegsOk, DomainOk, EndsOk;
    var sizes := h.ix.sizes[a := h.cs[a].size];
    assert FreeSizes(h.cs, sizes);
    assert a !in h.ix.sizes;
    ChunkAt(h.m, h.cs, a);
    hide PartsOk, FreeSizes;
    FreeAreSizes(h.m, h.cs, sizes);
  }

  lemma FreeAreSizes(m: Mem, cs: map<int, Chunk>, sizes: map<int, int>)
    requires TagsOk(m, cs) && FreeSizes(cs, sizes)
    ensures SizesOk(m, sizes)
  {
    hide TagsOk, NextOk, PrevOk;
    forall a | a in sizes
      ensures FreeWords(m, a, sizes[a])
    {
      ChunkAt(m, cs, a);
    }
    forall a, b | a in sizes && b in sizes && a != b
      ensures Apart(a, sizes[a], b, sizes[b])
    {
      Beside(m, cs, a, b);
    }
  }

  lemma InsertedGood(h: Heap, h': Heap, a: int, holes: set<int>)
    requires Good(h, holes) && a in holes && IndexStep(h, h')
    requires a in h.cs && h'.ix.sizes == h.ix.sizes[a := h.cs[a].size] && OnlyLinks(h.m, h'.m, h'.ix.sizes)
    ensures Good(h', holes - {a}) && Untouched(h.m, h'.m, LiveOf(h.cs))
  {
    hide TagsOk, IndexOk, SegsOk, DomainOk, EndsOk, OnlyLinks, FreeSizes, CanAdd;
    HoleFits(h, a, holes);
    InsertedParts(h, h', a, holes);
    hide Good, PartsOk, IndexStep;
    IndexStepGood(h, h', h'.ix.sizes, holes, holes - {a});
  }
}
