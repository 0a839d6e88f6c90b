/** Giving back a whole segment that holds nothing but one free chunk. */
module Releasing {
  import opened Words
  import opened Memory
  import opened SizeClasses
  import opened FreeIndex
  import opened IndexReads
  import opened Tiling
  import opened HeapState
  import opened HeapOps
  import opened Frames
  import opened Segments
  import opened Traffic
  import opened Canonical
  import opened Footprint
  import opened Prepending
  import opened Limits
  import opened NewSegments

  /** The chunks of segment `i` when its first chunk reaches up to the record. */
  function SegmentChunks(h: Heap, i: int): set<int> {
    if i < 0 || i >= |h.segs| then {} else
    {h.segs[i].base, h.segs[i].rec - MEM_OFFSET, h.segs[i].rec - MEM_OFFSET + RECORD_SIZE}
  }

  /** The segment holds one free chunk, which is in hand, its record and its fenceposts. */
  ghost predicate Vacant(h: Heap, i: int) {
    && 0 < i < |h.segs|
    && var p, r := h.segs[i].base, h.segs[i].rec - MEM_OFFSET;
    && p in h.cs && h.cs[p].kind.Free? && h.cs[p].first && h.cs[p].size > 0 && p + h.cs[p].size == r
    && r in h.cs && h.cs[r].kind.Rec? && h.cs[r].size == RECORD_SIZE
    && r + RECORD_SIZE in h.cs && h.cs[r + RECORD_SIZE].kind.Fence? && h.cs[r + RECORD_SIZE].size > 0
    && r + RECORD_SIZE + h.cs[r + RECORD_SIZE].size == End(h.segs[i])
  }

  /** The test of `release_unused_segments`, lines 1418-1425. */
  ghost predicate Releasable(h: Heap, i: int) {
    && 0 < i < |h.segs|
    && var p := h.segs[i].base;
    && p in h.cs && h.cs[p].kind.Free? && p + h.cs[p].size >= End(h.segs[i]) - TOP_FOOT_SIZE
  }

  /** A free first chunk that passes the test fills its segment up to the record. */
  lemma ReleasableIsVacant(h: Heap, holes: set<int>, i: int)
    requires Good(h, holes) && Releasable(h, i)
    ensures Vacant(h, i) && h.segs[i].rec == End(h.segs[i]) - TOP_FOOT_SIZE + MEM_OFFSET
  {
    hide Good, TagsOk, IndexOk, PartsOk, SegsOk, DomainOk, EndsOk, RecordOk;
    GoodParts(h, holes);
    SegsRecord(h.m, h.cs, h.segs, i);
    var p, r := h.segs[i].base, h.segs[i].rec - MEM_OFFSET;
    HeadOf(h, holes, p);
    HeadOf(h, holes, r);
    HeadOf(h, holes, r + RECORD_SIZE);
    GoodBeside(h, holes, p, r);
    hide PinOk, HeadWord;
  }

  /** A segment whose record displaced its top is never given back, however empty it is. */
  lemma DisplacedStays(h: Heap, holes: set<int>, i: int)
    requires Good(h, holes) && 0 < i < |h.segs| && h.segs[i].rec != End(h.segs[i]) - TOP_FOOT_SIZE + MEM_OFFSET
    ensures !Releasable(h, i)
  {
    hide Good, Releasable;
    if Releasable(h, i) {
      ReleasableIsVacant(h, holes, i);
    }
  }

  /** The test of the pass is met exactly by a segment without blocks whose record did not displace top. */
  lemma ReleasableIsVacated(h: Heap, i: int)
    requires Good(h, {}) && 0 < i < |h.segs|
    ensures Releasable(h, i) <==> Vacated(LiveOf(h.cs), h.segs[i])
  {
    hide Good, Releasable, Vacated;
    if Releasable(h, i) {
      VacantIsVacated(h, i);
    } else if Vacated(LiveOf(h.cs), h.segs[i]) {
      VacatedIsReleasable(h, i);
    }
  }

  lemma VacantIsVacated(h: Heap, i: int)
    requires Good(h, {}) && Releasable(h, i)
    ensures Vacated(LiveOf(h.cs), h.segs[i])
  {
    hide Good, Releasable;
    ReleasableIsVacant(h, {}, i);
    forall a | a in LiveOf(h.cs)
      ensures !InSeg(h.segs[i], a)
    {
      ReadTags(h, {}, a);
      VacantOnly(h, {}, i, a);
    }
  }

  /** Without blocks, the segment is one free chunk, its record and its fenceposts. */
  lemma VacatedIsReleasable(h: Heap, i: int)
    requires Good(h, {}) && 0 < i < |h.segs| && Vacated(LiveOf(h.cs), h.segs[i])
    ensures Releasable(h, i)
  {
    hide Good;
    var p := h.segs[i].base;
    FirstNotEnd(h, i);
    HeldSeg(h, {}, i);
    NoBlockBehind(h, i, p);
    if h.cs[p].kind.Rec? {
      RecordIsLast(h, i, p);
    } else {
      StaysInside(h, i, p);
      ReadNext(h, {}, p);
      var n := p + h.cs[p].size;
      NoBlockBehind(h, i, n);
      RecordIsLast(h, i, n);
    }
  }

  lemma NoBlockBehind(h: Heap, i: int, a: int)
    requires Good(h, {}) && 0 < i < |h.segs| && Vacated(LiveOf(h.cs), h.segs[i]) && a in h.cs && InSeg(h.segs[i], a)
    ensures h.cs[a].kind.Free? || h.cs[a].kind.Rec? || h.cs[a].kind.Fence?
  {
    hide Good;
    TopHasSegment(h);
    WhereFree(h, {}, a);
    HeadHoldsTop(h, {}, i);
    StaysInside(h, i, a);
    LastOf(h, i);
    assert h.cs[a].kind.Live? ==> a in LiveOf(h.cs);
  }

  /** There is one record chunk in a segment. */
  lemma RecordIsLast(h: Heap, i: int, a: int)
    requires Good(h, {}) && 0 < i < |h.segs| && a in h.cs && InSeg(h.segs[i], a) && h.cs[a].kind.Rec?
    ensures a == h.segs[i].rec - MEM_OFFSET
  {
    hide Good;
    StaysInside(h, i, a);
    ReadNext(h, {}, a);
    HeadOf(h, {}, a);
    StaysInside(h, i, a + h.cs[a].size);
  }

  lemma VacantOnly(h: Heap, holes: set<int>, i: int, a: int)
    requires Good(h, holes) && Vacant(h, i) && a in h.cs
    ensures a in SegmentChunks(h, i) || a + h.cs[a].size <= h.segs[i].base || End(h.segs[i]) <= a
  {
    hide Good;
    var p, r := h.segs[i].base, h.segs[i].rec - MEM_OFFSET;
    GoodBeside(h, holes, a, p);
    GoodBeside(h, holes, a, r);
    GoodBeside(h, holes, a, r + RECORD_SIZE);
  }

  function Dropped(h: Heap, m': Mem, i: int): Heap {
    if i < 1 || i >= |h.segs| then h else
    h.(m := m', cs := h.cs - SegmentChunks(h, i), segs := h.segs[..i] + h.segs[i + 1..])
  }

  /** The segment's memory is gone and the record before it leads past it. */
  ghost predicate DropWritten(h: Heap, m': Mem, i: int) {
    && 0 < i < |h.segs|
    && (forall w :: w in m' <==> w in h.m && !InSeg(h.segs[i], w))
    && var link := h.segs[i - 1].rec + SEG_NEXT;
    && (forall w :: w in m' && w != link ==> m'[w] == h.m[w])
    && link in m' && m'[link] == (if i + 1 < |h.segs| then h.segs[i + 1].rec else 0)
  }

  lemma DropRange(h: Heap, m': Mem, i: int, a: int, b: int)
    requires DropWritten(h, m', i) && Held(h.m, a, b) && (b <= h.segs[i].base || End(h.segs[i]) <= a)
    requires h.segs[i - 1].rec + SEG_NEXT < a || b <= h.segs[i - 1].rec + SEG_NEXT
    ensures RangeSame(h.m, m', a, b)
  {
  }

  /** The link of the record before lies in the struct or inside its own chunk. */
  lemma LinkPlace(h: Heap, holes: set<int>, i: int, b: int)
    requires Good(h, holes) && 0 < i < |h.segs| && b in h.cs
    ensures var link := h.segs[i - 1].rec + SEG_NEXT;
      link < HEAP_START || b + h.cs[b].size + HEAD <= link || link < b || b + MEM_OFFSET == h.segs[i - 1].rec
    ensures var link := h.segs[i - 1].rec + SEG_NEXT;
      b + MEM_OFFSET == h.segs[i - 1].rec && link >= HEAP_START ==> h.cs[b].kind.Rec? && link == b + 32
  {
    hide Good, RecordOk;
    PlaceRecord(h, holes, i - 1);
    if i > 1 {
      GoodBeside(h, holes, b, h.segs[i - 1].rec - MEM_OFFSET);
      ReadTags(h, holes, b);
    }
  }

  /** Chunks outside the segment keep their words, up to the link of the record before. */
  lemma DropMisses(h: Heap, m': Mem, holes: set<int>, i: int, b: int)
    requires Good(h, holes) && Vacant(h, i) && DropWritten(h, m', i) && b in h.cs && b !in SegmentChunks(h, i)
    ensures ChunkSame(h.m, m', b, h.cs[b])
    ensures h.cs[b].kind.Free? ==> BodySame(h.m, m', b, h.cs[b].size)
    ensures h.cs[b].kind.Live? || (h.cs[b].kind.Rec? && b + MEM_OFFSET != h.segs[i - 1].rec) ==>
      SamePayload(h.m, m', b, h.cs[b].size)
  {
    hide Good, RecordOk, Vacant, SegmentChunks, DropWritten;
    var n := b + h.cs[b].size;
    DropIndex(h, m', i);
    ReadTags(h, holes, b);
    LinkPlace(h, holes, i, b);
    VacantOnly(h, holes, i, b);
    if b + MEM_OFFSET == h.segs[i - 1].rec && h.cs[b].kind.Rec? {
      DropRange(h, m', i, b, b + MEM_OFFSET);
      assert Held(m', b, n) by { DropHeld(h, m', i, b, n); }
    } else {
      DropRange(h, m', i, b, n);
      if h.cs[b].kind.Live? || h.cs[b].kind.Rec? {
        ReadTags(h, holes, n);
        ReadNext(h, holes, b);
        HeldSeg(h, holes, i);
        assert n != h.segs[i].base by { VacantFirst(h, i); }
        DropRange(h, m', i, n, n + HEAD);
      }
    }
  }

  lemma DropHeld(h: Heap, m': Mem, i: int, a: int, b: int)
    requires DropWritten(h, m', i) && Held(h.m, a, b) && (b <= h.segs[i].base || End(h.segs[i]) <= a)
    ensures Held(m', a, b)
  {
  }

  lemma VacantFirst(h: Heap, i: int)
    requires Vacant(h, i)
    ensures h.segs[i].base in h.cs && h.cs[h.segs[i].base].first
  {
  }

  lemma DropChunk(h: Heap, m': Mem, holes: set<int>, i: int, a: int)
    requires Good(h, holes) && Vacant(h, i) && DropWritten(h, m', i) && a in h.cs && a !in SegmentChunks(h, i)
    ensures ChunkOk(m', Dropped(h, m', i).cs, a)
  {
    hide Good, DropWritten, SegmentChunks, TagsOk, KindOk, PinOk, HeadWord;
    var cs', n := Dropped(h, m', i).cs, a + h.cs[a].size;
    GoodTags(h, holes);
    ChunkAt(h.m, h.cs, a);
    DropMisses(h, m', holes, i, a);
    hide BodySame, SamePayload;
    if !Ends(h.cs[a].kind) {
      NextStays(h, holes, i, a);
      ChunkAt(h.m, h.cs, n);
      DropMisses(h, m', holes, i, n);
    }
    if !h.cs[a].pin && !h.cs[a].kind.Foot? {
      PrevStays(h, holes, i, a);
    }
  }

  lemma NextStays(h: Heap, holes: set<int>, i: int, a: int)
    requires Good(h, holes) && Vacant(h, i) && a in h.cs && a !in SegmentChunks(h, i) && !Ends(h.cs[a].kind)
    ensures a + h.cs[a].size in h.cs && a + h.cs[a].size !in SegmentChunks(h, i)
  {
    hide Good;
    ReadNext(h, holes, a);
    ReadTags(h, holes, a);
    VacantOnly(h, holes, i, a);
  }

  lemma PrevStays(h: Heap, holes: set<int>, i: int, a: int)
    requires Good(h, holes) && Vacant(h, i) && a in h.cs
    requires a !in SegmentChunks(h, i) && !h.cs[a].pin && !h.cs[a].kind.Foot?
    ensures a in h.m && a - h.m[a] in h.cs && a - h.m[a] !in SegmentChunks(h, i)
  {
    hide Good;
    ReadPrev(h, holes, a);
  }

  lemma DropTags(h: Heap, m': Mem, holes: set<int>, i: int)
    requires Good(h, holes) && Vacant(h, i) && DropWritten(h, m', i)
    ensures TagsOk(m', Dropped(h, m', i).cs)
  {
    hide Good, Vacant, DropWritten, SegmentChunks, ChunkOk;
    DropIndex(h, m', i);
    var cs' := Dropped(h, m', i).cs;
    forall a | a in cs'
      ensures ChunkOk(m', cs', a)
    {
      DropChunk(h, m', holes, i, a);
    }
    forall a, b | a in cs' && b in cs' && a < b
      ensures a + cs'[a].size <= b
    {
      GoodBeside(h, holes, a, b);
    }
  }

  lemma DropIndex(h: Heap, m': Mem, i: int)
    requires DropWritten(h, m', i)
    ensures 0 < i < |h.segs|
  {
  }

  lemma DropUntouched(h: Heap, m': Mem, holes: set<int>, i: int)
    requires Good(h, holes) && Vacant(h, i) && DropWritten(h, m', i)
    ensures Untouched(h.m, m', LiveOf(h.cs))
  {
    hide Good, Vacant, DropWritten, SegmentChunks, ChunkSame, BodySame, SamePayload;
    forall a | a in LiveOf(h.cs)
      ensures SamePayload(h.m, m', a, LiveOf(h.cs)[a].size)
    {
      DropIndex(h, m', i);
      LiveOutside(h, i, a);
      DropMisses(h, m', holes, i, a);
    }
  }

  lemma LiveOutside(h: Heap, i: int, a: int)
    requires Vacant(h, i) && a in h.cs && h.cs[a].kind.Live?
    ensures a !in SegmentChunks(h, i)
  {
  }

  lemma FreeOutside(h: Heap, i: int, a: int)
    requires Vacant(h, i) && a in h.cs && h.cs[a].kind.Free? && a != h.segs[i].base
    ensures a !in SegmentChunks(h, i)
  {
  }

  lemma DropKeepsIndex(h: Heap, m': Mem, holes: set<int>, i: int)
    requires Good(h, holes) && Vacant(h, i) && DropWritten(h, m', i) && h.segs[i].base in holes
    ensures IndexOk(m', h.smallmap, h.treemap, h.ix)
  {
    hide Good, Vacant, DropWritten, SegmentChunks, ChunkSame, BodySame, SamePayload, IndexOk;
    DropIndex(h, m', i);
    GoodIndex(h, holes);
    forall b | b in h.ix.sizes
      ensures BodySame(h.m, m', b, h.ix.sizes[b])
    {
      BinnedSize(h, holes, b);
      FreeOutside(h, i, b);
      DropMisses(h, m', holes, i, b);
    }
    assert BinsSame(h.m, m') by { DropBins(h, m', holes, i); }
    hide BinsSame;
    IndexFrame(h.m, m', h.smallmap, h.treemap, h.ix);
  }

  lemma VacantKinds(h: Heap, i: int, a: int)
    requires Vacant(h, i) && a in h.cs && a in SegmentChunks(h, i)
    ensures !h.cs[a].kind.Live? && !h.cs[a].kind.Top? && (h.cs[a].kind.Free? ==> a == h.segs[i].base)
  {
  }

  lemma DropBins(h: Heap, m': Mem, holes: set<int>, i: int)
    requires Good(h, holes) && Vacant(h, i) && DropWritten(h, m', i)
    ensures BinsSame(h.m, m')
  {
    hide Good, RecordOk, Vacant;
    PlaceRecord(h, holes, i - 1);
    HeldSeg(h, holes, i);
    assert forall w :: InStruct(w) ==> w in h.m by { hide DropWritten; HeldStruct(h, holes); }
    if i > 1 {
      ReadTags(h, holes, h.segs[i - 1].rec - MEM_OFFSET);
    }
    hide TagReads;
  }

  lemma DropParts(h: Heap, m': Mem, i: int)
    requires 0 < i < |h.segs| && Good(h, {h.segs[i].base}) && Vacant(h, i)
    ensures PartsOk(Dropped(h, m', i), {}) && LiveOf(Dropped(h, m', i).cs) == LiveOf(h.cs)
  {
    hide Good, Vacant, TagsOk, IndexOk, PartsOk, SegsOk, DomainOk, EndsOk, SegmentChunks;
    var p := h.segs[i].base;
    GoodParts(h, {p});
    forall a | a in h.cs && a in SegmentChunks(h, i)
      ensures !h.cs[a].kind.Live? && !h.cs[a].kind.Top? && (h.cs[a].kind.Free? ==> a == p)
    {
      VacantKinds(h, i, a);
    }
    VacantBase(h, i);
    VacantFirst(h, i);
    DropPlaces(h, Dropped(h, m', i), p, SegmentChunks(h, i));
    DropLive(h.cs, SegmentChunks(h, i));
  }

  lemma DropPlaces(h: Heap, h': Heap, p: int, gone: set<int>)
    requires PartsOk(h, {p}) && p in gone && h.cs != map[]
    requires forall a :: a in h.cs && a in gone ==> !h.cs[a].kind.Top? && (h.cs[a].kind.Free? ==> a == p)
    requires h'.cs == h.cs - gone && h'.ix == h.ix && h'.dv == h.dv && h'.dvsize == h.dvsize
    requires h'.top == h.top && h'.topsize == h.topsize
    ensures PartsOk(h', {})
  {
  }

  lemma DropLive(cs: map<int, Chunk>, gone: set<int>)
    requires forall a :: a in cs && a in gone ==> !cs[a].kind.Live?
    ensures LiveOf(cs - gone) == LiveOf(cs)
  {
    forall a
      ensures a in LiveOf(cs - gone) <==> a in LiveOf(cs)
      ensures a in LiveOf(cs) ==> LiveOf(cs - gone)[a] == LiveOf(cs)[a]
    {
      assert a in cs - gone <==> a in cs && a !in gone;
    }
  }

  lemma VacantBase(h: Heap, i: int)
    requires 0 < i < |h.segs|
    ensures h.segs[i].base in SegmentChunks(h, i)
  {
  }

  lemma DropEnds(h: Heap, m': Mem, holes: set<int>, i: int)
    requires Good(h, holes) && Vacant(h, i) && 0 < i < |h.segs|
    ensures var h' := Dropped(h, m', i); EndsOk(h'.cs, h'.segs, h'.top, h'.topsize)
  {
    hide Good, Vacant, TagsOk, IndexOk, PartsOk, SegsOk, DomainOk, SegmentChunks;
    GoodParts(h, holes);
    var h' := Dropped(h, m', i);
    HeldSeg(h, holes, i);
    forall a | a in h'.cs && Ends(h'.cs[a].kind)
      ensures EndsSegment(h'.segs, a + h'.cs[a].size)
    {
      VacantOnly(h, holes, i, a);
      ReadTags(h, holes, a);
      var e := a + h.cs[a].size;
      var j :| 0 <= j < |h.segs| && e == h.segs[j].base + h.segs[j].size;
      if j == i {
        assert false;
      } else {
        assert h'.segs[if j < i then j else j - 1] == h.segs[j];
      }
    }
  }

  lemma DropDomain(h: Heap, m': Mem, holes: set<int>, i: int)
    requires Good(h, holes) && DropWritten(h, m', i)
    ensures Domain(m', Dropped(h, m', i).segs)
  {
    hide Good;
    HeldStruct(h, holes);
    HeldSeg(h, holes, i);
    var segs' := Dropped(h, m', i).segs;
    forall w
      ensures w in m' <==> InStruct(w) || Covered(segs', w)
    {
      assert w in h.m <==> InStruct(w) || Covered(h.segs, w);
      if j :| 0 <= j < |h.segs| && InSeg(h.segs[j], w) && j != i {
        assert segs'[if j < i then j else j - 1] == h.segs[j];
        assert InSeg(segs'[if j < i then j else j - 1], w);
      }
      if j :| 0 <= j < |segs'| && InSeg(segs'[j], w) {
        assert segs'[j] == h.segs[if j < i then j else j + 1];
        assert InSeg(h.segs[if j < i then j else j + 1], w);
        if j < i { SegsApartOf(h, holes, j, i); } else { SegsApartOf(h, holes, i, j + 1); }
      }
    }
  }

  lemma DropSeg(h: Heap, m': Mem, holes: set<int>, i: int, j: int)
    requires Good(h, holes) && Vacant(h, i) && 0 < i < |h.segs| && 0 <= j < |h.segs| && j != i
    ensures SegOk(Dropped(h, m', i).cs, h.segs[j], j == 0)
  {
    hide Good, Vacant, TagsOk, IndexOk, PartsOk, SegsOk, DomainOk, EndsOk, SegOk, SegmentChunks;
    var cs' := Dropped(h, m', i).cs;
    GoodParts(h, holes);
    SegsRecord(h.m, h.cs, h.segs, j);
    HeldSeg(h, holes, i);
    forall a | a in h.cs && InSeg(h.segs[j], a)
      ensures a in cs' && cs'[a] == h.cs[a]
    {
      if j < i { SegsApartOf(h, holes, j, i); } else { SegsApartOf(h, holes, i, j); }
      OutsideSegment(h, holes, i, a);
    }
    SizesPositive(h, holes);
    SegKept(h.cs, cs', h.segs[j], j == 0);
  }

  lemma OutsideSegment(h: Heap, holes: set<int>, i: int, a: int)
    requires Good(h, holes) && Vacant(h, i) && !InSeg(h.segs[i], a)
    ensures a !in SegmentChunks(h, i)
  {
    hide Good;
    SizesPositive(h, holes);
  }

  lemma DropRecord(h: Heap, m': Mem, holes: set<int>, i: int, j: int)
    requires Good(h, holes) && Vacant(h, i) && DropWritten(h, m', i) && 0 <= j < |h.segs| && j != i
    ensures |Dropped(h, m', i).segs| == |h.segs| - 1
    ensures RecordOk(m', Dropped(h, m', i).segs, if j < i then j else j - 1)
  {
    hide Good, Vacant, SegOk;
    PlaceRecord(h, holes, j);
    PlaceRecord(h, holes, i - 1);
    RecordElsewhere(h, holes, i, j);
    if j != i - 1 {
      RecordsDiffer(h, holes, i - 1, j);
    }
  }

  /** A record's words are held and not in another segment. */
  lemma RecordElsewhere(h: Heap, holes: set<int>, i: int, j: int)
    requires Good(h, holes) && 0 <= i < |h.segs| && 0 <= j < |h.segs| && j != i
    ensures forall w :: h.segs[j].rec <= w < h.segs[j].rec + 32 ==> !InSeg(h.segs[i], w)
  {
    hide Good, RecordOk;
    HeldSeg(h, holes, i);
    if j == 0 {
      PlaceRecord(h, holes, 0);
    } else {
      RecordInside(h, holes, j);
      if j < i { SegsApartOf(h, holes, j, i); } else { SegsApartOf(h, holes, i, j); }
    }
  }

  lemma DropSegs(h: Heap, m': Mem, holes: set<int>, i: int)
    requires Good(h, holes) && Vacant(h, i) && DropWritten(h, m', i)
    ensures SegsOk(m', Dropped(h, m', i).cs, Dropped(h, m', i).segs)
  {
    hide Good, Vacant, DropWritten, SegOk, RecordOk, SegmentChunks;
    DropIndex(h, m', i);
    var h' := Dropped(h, m', i);
    forall k | 0 <= k < |h'.segs|
      ensures SegOk(h'.cs, h'.segs[k], k == 0) && RecordOk(m', h'.segs, k)
    {
      var j := if k < i then k else k + 1;
      assert h'.segs[k] == h.segs[j];
      DropSeg(h, m', holes, i, j);
      DropRecord(h, m', holes, i, j);
    }
    forall k, l | 0 <= k < l < |h'.segs|
      ensures SegsApart(h'.segs[k], h'.segs[l])
    {
      SegsApartOf(h, holes, if k < i then k else k + 1, if l < i then l else l + 1);
    }
    SegsFrom(m', h'.cs, h'.segs);
  }

  /** Giving back a vacant segment keeps the invariant and every block. */
  lemma DropGood(h: Heap, m': Mem, i: int)
    requires 0 < i < |h.segs| && Good(h, {h.segs[i].base}) && Vacant(h, i) && DropWritten(h, m', i)
    ensures Good(Dropped(h, m', i), {}) && Untouched(h.m, m', LiveOf(h.cs))
    ensures LiveOf(Dropped(h, m', i).cs) == LiveOf(h.cs)
  {
    hide Good, Vacant, DropWritten, SegmentChunks, LiveOf, Untouched, TagsOk, IndexOk, PartsOk, SegsOk, DomainOk,
         EndsOk, Domain;
    var h', holes := Dropped(h, m', i), {h.segs[i].base};
    DropTags(h, m', holes, i);
    DropKeepsIndex(h, m', holes, i);
    DropUntouched(h, m', holes, i);
    DropParts(h, m', i);
    DropSegs(h, m', holes, i);
    DropDomain(h, m', holes, i);
    DomainIff(m', h'.segs);
    DropEnds(h, m', holes, i);
    GoodParts(h, holes);
    GoodFrom(h', {});
  }

  // ---------- which list holds the chunk of a releasable segment ----------

  /** The chunk that fills a releasable segment goes to a tree bin exactly if the segment has at least 336 bytes. */
  lemma ReleasableIsLarge(h: Heap, holes: set<int>, i: int)
    requires Good(h, holes) && Releasable(h, i)
    ensures h.cs[h.segs[i].base].size == h.segs[i].size - TOP_FOOT_SIZE
    ensures !IsSmall(h.cs[h.segs[i].base].size) <==> h.segs[i].size >= MIN_LARGE_SIZE + TOP_FOOT_SIZE
  {
    hide Good, Releasable;
    ReleasableIsVacant(h, holes, i);
  }

  /** What `sys_trim` asks for, line 1357: whole units, leaving top more than `pad`. */
  function TrimAmount(topsize: int, pad: int, unit: int): int
    requires unit > 0
  {
    ((topsize - pad + unit - 1) / unit - 1) * unit
  }

  /** The same in words, whose sum and whose difference may wrap around. */
  function TrimWord(topsize: int, pad: int, unit: int): int
    requires unit > 0
  {
    Minus((topsize - pad + unit - 1) % WORD_LIMIT / unit, 1) * unit % WORD_LIMIT
  }

  /** It makes no difference: when the sum wraps, so does the difference, and the product is the same. */
  lemma TrimWraps(topsize: int, pad: int, unit: int)
    requires LegalGranularity(unit) && 0 <= pad < topsize < WORD_LIMIT
    ensures TrimWord(topsize, pad, unit) == TrimAmount(topsize, pad, unit)
  {
    var k := UnitsPerWord(unit);
    var x := topsize - pad + unit - 1;
    TrimUnits(topsize, pad, unit);
    if x < WORD_LIMIT {
      UnitsFit(x, unit);
    } else {
      UnitsWrapped(x, unit, k);
    }
  }

  /** A legal granularity divides the number of words. */
  lemma UnitsPerWord(unit: int) returns (k: int)
    requires LegalGranularity(unit)
    ensures k * unit == WORD_LIMIT
  {
    var e := Log2(unit);
    GranularityFacts(unit);
    TopPower();
    assert e < 64 by {
      if e >= 64 {
        Pow2Monotone(64, e);
      }
    }
    k := Pow2(64 - e);
    assert k * unit == WORD_LIMIT by {
      hide Pow2, Log2;
      Pow2Adds(64 - e, e);
      assert 64 - e + e == 64;
    }
  }

  lemma UnitsFit(x: int, unit: int)
    requires 0 < unit <= x < WORD_LIMIT
    ensures Minus(x % WORD_LIMIT / unit, 1) * unit % WORD_LIMIT == (x / unit - 1) * unit
  {
    var n := x / unit;
    assert x == unit * n + x % unit;
    assert n >= 1;
    assert n * unit == unit * n && (n - 1) * unit == n * unit - unit;
    assert 0 <= (n - 1) * unit < WORD_LIMIT;
    assert x % WORD_LIMIT == x;
    MinusWraps(n, 1);
  }

  lemma UnitsWrapped(x: int, unit: int, k: int)
    requires 0 < unit < WORD_LIMIT == k * unit && WORD_LIMIT <= x < WORD_LIMIT + unit
    ensures Minus(x % WORD_LIMIT / unit, 1) * unit % WORD_LIMIT == (x / unit - 1) * unit
  {
    var r := x - WORD_LIMIT;
    assert x % WORD_LIMIT == r && r / unit == 0;
    MinusWraps(0, 1);
    LastUnit(unit);
    assert x == unit * k + r;
    assert x / unit == k;
    assert (k - 1) * unit == k * unit - unit;
  }

  lemma LastUnit(unit: int)
    requires 0 < unit < WORD_LIMIT
    ensures (WORD_LIMIT - 1) * unit % WORD_LIMIT == WORD_LIMIT - unit
  {
    assert (WORD_LIMIT - 1) * unit == (unit - 1) * WORD_LIMIT + (WORD_LIMIT - unit);
  }

  lemma TrimBounds(topsize: int, pad: int, unit: int)
    requires unit > 0 && topsize > pad
    ensures var extra := TrimAmount(topsize, pad, unit);
      && 0 <= extra < topsize - pad <= extra + unit && extra % unit == 0
      && (unit % 16 == 0 ==> extra % 16 == 0) && (unit % MIN_REGION == 0 ==> extra % MIN_REGION == 0)
  {
    hide TrimAmount;
    TrimUnits(topsize, pad, unit);
    var n := (topsize - pad + unit - 1) / unit - 1;
    WholeMultiple(n, unit);
    if unit % 16 == 0 {
      MultipleOf16(n, unit / 16);
      assert unit == 16 * (unit / 16);
    }
    if unit % MIN_REGION == 0 {
      MultipleOf(n, unit / MIN_REGION);
      assert unit == MIN_REGION * (unit / MIN_REGION);
    }
  }

  lemma MultipleOf16(n: int, k: int)
    ensures n * (16 * k) % 16 == 0
  {
    assert n * (16 * k) == 16 * (n * k);
  }

  lemma TrimUnits(topsize: int, pad: int, unit: int)
    requires unit > 0 && topsize > pad
    ensures var n := (topsize - pad + unit - 1) / unit - 1;
      TrimAmount(topsize, pad, unit) == n * unit && 0 <= n * unit < topsize - pad <= n * unit + unit
  {
    var x := topsize - pad + unit - 1;
    assert x == unit * (x / unit) + x % unit;
    assert (x / unit - 1) * unit == unit * (x / unit) - unit;
    assert x / unit >= 1;
  }

  lemma MultipleOf(n: int, k: int)
    ensures n * (MIN_REGION * k) % MIN_REGION == 0
  {
    assert n * (MIN_REGION * k) == MIN_REGION * (n * k);
  }

  /** What remains of a region of `tsize` bytes after `sys_trim` with the reserve `pad`. */
  function LeftOver(g: int, tsize: int, pad: int): int
    requires g > 0
  {
    if tsize - TOP_FOOT_SIZE > pad then tsize - TrimAmount(tsize - TOP_FOOT_SIZE, pad, g) else tsize
  }

  /** A region of whole units, trimmed or not, is so small that the chunk filling it belongs in a small bin. */
  predicate LeavesSmall(g: int, tsize: int, pad: int) {
    && g > 0 && tsize % g == 0 && tsize >= LEAST_REGION && pad >= TOP_FOOT_SIZE
    && IsSmall(LeftOver(g, tsize, pad) - TOP_FOOT_SIZE)
  }

  /**
   `release_unused_segments` takes the chunk of a segment out with `unlink_large_chunk` without asking whether it is
   large. A legal granularity lets segments become too small for that exactly if it is below 512 bytes.
   */
  lemma SafeGranularity(g: int)
    requires LegalGranularity(g)
    ensures (exists tsize, pad :: LeavesSmall(g, tsize, pad)) <==> g < MIN_REGION
  {
    if g < MIN_REGION {
      SmallUnits(g);
      assert LeavesSmall(g, 256, 1000);
    } else {
      forall tsize, pad
        ensures !LeavesSmall(g, tsize, pad)
      {
        NeverSmall(g, tsize, pad);
      }
    }
  }

  /** Trimming a region of the default granularity, whatever the unit is. */
  lemma TrimmedRegion(g: int)
    requires LegalGranularity(g) && g <= DEFAULT_GRANULARITY
    ensures IsSmall(LeftOver(g, DEFAULT_GRANULARITY, TOP_FOOT_SIZE) - TOP_FOOT_SIZE) <==> g < MIN_REGION
  {
    if g < MIN_REGION {
      SmallUnits(g);
    } else {
      TrimIsPaged(g);
      hide LegalGranularity, LeftOver;
      LeftOverPaged(g, DEFAULT_GRANULARITY, TOP_FOOT_SIZE);
    }
  }

  lemma NeverSmall(g: int, tsize: int, pad: int)
    requires LegalGranularity(g) && g >= MIN_REGION
    ensures !LeavesSmall(g, tsize, pad)
  {
    TrimIsPaged(g);
    hide LegalGranularity, LeftOver, TrimAmount, IsSmall;
    if tsize % g == 0 && tsize >= LEAST_REGION && pad >= TOP_FOOT_SIZE {
      assert tsize % MIN_REGION == 0 by {
        assert tsize == g * (tsize / g) && g == MIN_REGION * (g / MIN_REGION);
        MultipleOf(tsize / g, g / MIN_REGION);
      }
      LeftOverPaged(g, tsize, pad);
    }
  }

  lemma LeftOverPaged(g: int, tsize: int, pad: int)
    requires g > 0 && g % MIN_REGION == 0 && tsize % MIN_REGION == 0 && tsize > 0 && pad >= TOP_FOOT_SIZE
    ensures LeftOver(g, tsize, pad) % MIN_REGION == 0 && LeftOver(g, tsize, pad) >= MIN_REGION
    ensures !IsSmall(LeftOver(g, tsize, pad) - TOP_FOOT_SIZE)
  {
    hide TrimAmount;
    if tsize - TOP_FOOT_SIZE > pad {
      TrimBounds(tsize - TOP_FOOT_SIZE, pad, g);
    }
  }

  lemma SmallUnits(g: int)
    requires LegalGranularity(g) && g < MIN_REGION
    ensures g == 16 || g == 32 || g == 64 || g == 128 || g == 256
  {
    var e := Log2(g);
    SmallPowers(4);
    assert Pow2(8) == 256 && Pow2(5) == 32 && Pow2(6) == 64 && Pow2(7) == 128 && Pow2(9) == 512 by {
      Pow2Adds(4, 4);
      assert Pow2(5) == 2 * Pow2(4) && Pow2(6) == 2 * Pow2(5) && Pow2(7) == 2 * Pow2(6) && Pow2(9) == 2 * Pow2(8);
    }
    if e >= 9 {
      Pow2Monotone(9, e);
    } else if e <= 3 {
      SmallPowers(e);
    }
  }

  lemma SmallNotLocated(m: Mem, smallmap: bv32, treemap: bv32, ix: Index, a: int)
    requires IndexOk(m, smallmap, treemap, ix) && a in ix.sizes && IsSmall(ix.sizes[a])
    ensures a !in ix.loc
  {
    hide SizesOk, SmallOk, NodeOk, TreeBinOk;
  }

  // ---------- when the release pass is safe ----------

  /** Every segment the pass would try to give back is filled by a large chunk. */
  ghost predicate PassSafe(h: Heap) {
    forall i :: Releasable(h, i) ==> h.segs[i].size >= LARGE_SEGMENT
  }

  /**
   The pass takes the chunk of a releasable segment for the victim or for a chunk in a tree. It is one of the two
   exactly if it is the victim or the segment is large.
   */
  lemma ReleasableLocated(h: Heap, i: int)
    requires Good(h, {}) && Releasable(h, i)
    ensures var p := h.segs[i].base;
      p == h.dv || p in h.ix.loc <==> p == h.dv || h.segs[i].size >= LARGE_SEGMENT
    ensures h.segs[i].base != h.dv ==> h.segs[i].base in h.ix.sizes
  {
    var p := h.segs[i].base;
    hide Good;
    ReleasableIsLarge(h, {}, i);
    WhereFree(h, {}, p);
    GoodIndex(h, {});
    if p != h.dv {
      BinnedSize(h, {}, p);
      if IsSmall(h.ix.sizes[p]) {
        SmallNotLocated(h.m, h.smallmap, h.treemap, h.ix, p);
      } else {
        LargeIsLocated(h.m, h.smallmap, h.treemap, h.ix, p);
      }
    }
  }

  lemma TailBehindHead(segs: seq<Seg>, segs': seq<Seg>)
    requires segs != [] && segs' != [] && segs'[1..] == segs[1..]
    ensures TailLarge(segs) ==> TailLarge(segs')
  {
    forall i | 0 < i < |segs'|
      ensures segs'[i] == segs[i]
    {
      assert segs'[i] == segs'[1..][i - 1];
    }
  }

  /** On segments made of whole regions the pass is safe. */
  lemma WholeIsSafe(h: Heap)
    requires Good(h, {}) && Paged(h.segs)
    ensures PassSafe(h)
  {
    PagedIsLarge(h, {});
  }

  /**
   What `unlink_large_chunk` reads of a chunk of 48 bytes that fills its segment: its own foot for the parent, which is
   not null, and the head of the record behind it for the number of the bin.
   */
  lemma MisreadAsNode(h: Heap, i: int)
    requires Good(h, {}) && Releasable(h, i) && h.segs[i].size == 48 + TOP_FOOT_SIZE
    ensures var p := h.segs[i].base;
      && p + PARENT in h.m && h.m[p + PARENT] == 48
      && p + INDEX in h.m && h.m[p + INDEX] == RECORD_SIZE + 2 > 32
  {
    hide Good;
    var p := h.segs[i].base;
    ReleasableIsVacant(h, {}, i);
    assert p in h.cs && h.cs[p].size == 48 && h.cs[p].kind.Free? && p + 48 in h.cs && h.cs[p + 48].kind.Rec?;
    hide Releasable, Vacant;
    ReadNext(h, {}, p);
    HeadOf(h, {}, p + 48);
  }

  lemma TailIsSafe(h: Heap)
    requires TailLarge(h.segs)
    ensures PassSafe(h)
  {
  }

  /** Segments made of whole regions are large enough. */
  lemma PagedIsLarge(h: Heap, holes: set<int>)
    requires Good(h, holes) && Paged(h.segs)
    ensures AllLarge(h.segs)
  {
    hide Good;
    forall i | 0 <= i < |h.segs|
      ensures h.segs[i].size >= LARGE_SEGMENT
    {
      HeldSeg(h, holes, i);
    }
  }

  /** No free chunk has been added or changed. */
  ghost predicate FreeFewer(cs: map<int, Chunk>, cs': map<int, Chunk>) {
    forall a :: a in cs' && cs'[a].kind.Free? ==> a in cs && cs[a] == cs'[a]
  }

  lemma FewerSelf(cs: map<int, Chunk>)
    ensures FreeFewer(cs, cs)
  {
  }

  lemma DropFewer(h: Heap, m': Mem, i: int)
    ensures FreeFewer(h.cs, Dropped(h, m', i).cs)
  {
  }

  lemma PassSafeAt(h: Heap, i: int)
    ensures PassSafe(h) && Releasable(h, i) ==> h.segs[i].size >= LARGE_SEGMENT
  {
  }

  /** Trimming moves the end of top and the reserve behind it, and no other free chunk. */
  lemma TrimFewer(h: Heap, m': Mem, f': int)
    requires Good(h, {}) && h.top != 0
    ensures FreeFewer(h.cs, EndMoved(h, m', f').cs)
  {
    hide Good;
    Tail(h, {});
  }

  /** The size of top is a machine word. */
  lemma WordTop(h: Heap)
    requires Good(h, {}) && h.top != 0
    ensures HEAP_START <= h.top && 0 <= h.topsize && h.top + h.topsize < WORD_LIMIT
  {
    hide Good;
    Tail(h, {});
    HeldSeg(h, {}, 0);
  }

  /** Changing the head segment only does not make the pass unsafe. */
  lemma SafeBehindHead(h: Heap, h': Heap)
    requires PassSafe(h) && FreeFewer(h.cs, h'.cs) && h.segs != [] && h'.segs != [] && h'.segs[1..] == h.segs[1..]
    ensures PassSafe(h')
  {
    forall i | Releasable(h', i)
      ensures h'.segs[i].size >= LARGE_SEGMENT
    {
      assert h'.segs[i] == h'.segs[1..][i - 1] == h.segs[i];
      assert Releasable(h, i);
    }
  }

  /** Giving back a segment does not make the pass unsafe. */
  lemma SafeWithout(h: Heap, h': Heap, i: int, freed: bool)
    requires PassSafe(h) && FreeFewer(h.cs, h'.cs) && 0 < i < |h.segs| && h'.segs == Without(h.segs, i, freed)
    ensures PassSafe(h')
  {
    forall j | Releasable(h', j)
      ensures h'.segs[j].size >= LARGE_SEGMENT
    {
      var j' := if freed && j >= i then j + 1 else j;
      assert h'.segs[j] == h.segs[j'];
      assert Releasable(h, j');
    }
  }

  // ---------- what the release pass reads ----------

  lemma VacantFree(h: Heap, i: int)
    requires Vacant(h, i)
    ensures 0 < i < |h.segs|
    ensures var p := h.segs[i].base; p in h.cs && h.cs[p].kind.Free?
  {
  }

  /** Moving chunks in and out of the index does not change which chunks there are. */
  lemma VacantSame(h: Heap, h1: Heap, i: int)
    requires Vacant(h, i) && h1.cs == h.cs && h1.segs == h.segs
    ensures Vacant(h1, i)
  {
  }

  lemma DropLinkHeld(h: Heap, m1: Mem, i: int)
    requires 0 < i < |h.segs| && Good(h, {h.segs[i].base}) && Shrunk(h.m, m1, h.segs[i].base, End(h.segs[i]))
    ensures h.segs[i - 1].rec + SEG_NEXT in m1
    ensures DropWritten(h, m1[h.segs[i - 1].rec + SEG_NEXT := RecAt(h.segs, i + 1)], i)
  {
    hide Good;
    var holes := {h.segs[i].base};
    PlaceRecord(h, holes, i - 1);
    RecordElsewhere(h, holes, i, i - 1);
    assert !InSeg(h.segs[i], h.segs[i - 1].rec + SEG_NEXT);
  }

  /** The first chunk of a segment, as the release pass sees it. */
  ghost predicate FirstSeen(h: Heap, i: int) {
    && 0 <= i < |h.segs|
    && var p := h.segs[i].base;
    && p in h.cs && p % 16 == 0 && p + HEAD in h.m
    && (h.cs[p].kind.Free? || h.cs[p].kind.Top? <==> !Inuse(h.m[p + HEAD]))
    && Size(h.m[p + HEAD]) == h.cs[p].size && (i > 0 ==> !h.cs[p].kind.Top?)
  }

  lemma SeeFirst(h: Heap, i: int)
    requires Good(h, {}) && 0 < i < |h.segs|
    ensures FirstSeen(h, i)
  {
    hide Good;
    FirstNotEnd(h, i);
    HeldSeg(h, {}, i);
    ReadTags(h, {}, h.segs[i].base);
    WhereFree(h, {}, h.segs[i].base);
    TopHasSegment(h);
    OtherSegment(h, i, h.segs[i].base);
  }

  lemma TestIsReleasable(h: Heap, i: int)
    requires 0 < i < |h.segs| && FirstSeen(h, i)
    ensures Releasable(h, i) <==>
      && !Inuse(h.m[h.segs[i].base + HEAD])
      && h.segs[i].base + Size(h.m[h.segs[i].base + HEAD]) >= h.segs[i].base + (h.segs[i].size - TOP_FOOT_SIZE)
  {
  }

  // ---------- trimming ----------

  /** No record lies in the head segment: its own is in the struct, and the others are in the segments they describe. */
  lemma NoLinkInHead(h: Heap)
    requires Good(h, {}) && h.segs != []
    ensures forall i :: 0 <= i < |h.segs| ==> !InSeg(h.segs[0], h.segs[i].rec)
  {
    hide Good;
    forall i | 0 <= i < |h.segs|
      ensures !InSeg(h.segs[0], h.segs[i].rec)
    {
      HeldSeg(h, {}, 0);
      if i == 0 {
        PlaceRecord(h, {}, 0);
      } else {
        RecordElsewhere(h, {}, 0, i);
      }
    }
  }

  lemma TrimIsPaged(g: int)
    requires LegalGranularity(g)
    ensures g >= MIN_REGION ==> g % MIN_REGION == 0
  {
    if g >= MIN_REGION {
      var e := Log2(g);
      if e < 9 {
        Pow2Monotone(e + 1, 9);
      }
      Pow2Adds(9, e - 9);
    }
  }

  lemma NothingShrunk(m: Mem, m': Mem, lo: int, hi: int)
    requires Shrunk(m, m', lo, hi)
    ensures lo == hi ==> m' == m
  {
    if lo == hi {
      forall w
        ensures w in m' <==> w in m
        ensures w in m' ==> m'[w] == m[w]
      {
      }
      assert m'.Keys == m.Keys;
    }
  }

  /** What `sys_trim` needs to know about top and the head segment. */
  lemma TrimReady(h: Heap)
    requires Good(h, {}) && h.top != 0
    ensures h.segs != [] && Linked(h.m, h.segs) && h.segs[0].rec == SEG && Held(h.m, h.segs[0].base, End(h.segs[0]))
    ensures 0 < h.topsize < h.segs[0].size && h.topsize < WORD_LIMIT && InSeg(h.segs[0], h.top)
  {
    hide Good;
    TopHasSegment(h);
    GoodLinked(h, {});
    HeadRec(h.m, h.segs);
    Tail(h, {});
    WordTop(h);
    HeldSeg(h, {}, 0);
    HeadHoldsTop(h, {}, 0);
  }

  lemma NothingTaken(m: Mem, hi: int)
    ensures Shrunk(m, m, hi, hi)
  {
  }

  lemma TrimHeld(h: Heap, m1: Mem, released: int)
    requires Good(h, {}) && h.top != 0 && h.segs != [] && 0 < released < h.topsize
    requires Shrunk(h.m, m1, End(h.segs[0]) - released, End(h.segs[0]))
    ensures h.top + HEAD in m1 && h.top + h.topsize - released + HEAD in m1
    ensures SEG + SEG_SIZE in m1 && m1[SEG + SEG_SIZE] == h.segs[0].size
  {
    hide Good;
    Tail(h, {});
    HeldSeg(h, {}, 0);
    PlaceRecord(h, {}, 0);
  }

  // ---------- destroying the allocator ----------

  /** What is held are the words that do not lie in a segment the system took, and none of them has changed. */
  ghost predicate Remaining(h: Heap, m: Mem, gone: seq<bool>) {
    && (forall w :: w in m <==> w in h.m && !InTaken(h.segs, gone, w))
    && (forall w :: w in m ==> m[w] == h.m[w])
  }

  ghost predicate InTaken(segs: seq<Seg>, gone: seq<bool>, w: int) {
    exists j :: 0 <= j < |gone| && j < |segs| && gone[j] && InSeg(segs[j], w)
  }

  lemma RemainingStart(h: Heap)
    ensures Remaining(h, h.m, []) && FreedTotal(h.segs, []) == 0
  {
  }

  /** The record of a segment that has not been visited is still there: it never lay in another segment. */
  lemma RecordRemains(h: Heap, m: Mem, gone: seq<bool>)
    requires Good(h, {}) && Remaining(h, m, gone) && |gone| < |h.segs|
    ensures var i := |gone|;
      RecordOk(m, h.segs, i) && Held(m, h.segs[i].base, End(h.segs[i])) && HEAP_START <= h.segs[i].base
  {
    hide Good, RecordOk;
    var i := |gone|;
    HeldSeg(h, {}, i);
    RecordHeld(h, i);
    forall w | h.segs[i].rec <= w < h.segs[i].rec + 32 || h.segs[i].base <= w < End(h.segs[i])
      ensures !InTaken(h.segs, gone, w)
    {
      forall j | 0 <= j < i
        ensures !InSeg(h.segs[j], w)
      {
        RecordElsewhere(h, {}, j, i);
        SegsApartOf(h, {}, j, i);
      }
    }
    RecordThere(h.m, m, h.segs, i);
  }

  lemma RecordThere(m0: Mem, m: Mem, segs: seq<Seg>, i: int)
    requires 0 <= i < |segs| && RecordOk(m0, segs, i) && (forall w :: w in m ==> w in m0 && m[w] == m0[w])
    requires forall w :: segs[i].rec <= w < segs[i].rec + 32 && w in m0 ==> w in m
    ensures RecordOk(m, segs, i)
  {
  }

  lemma RemainingMore(h: Heap, m: Mem, m': Mem, gone: seq<bool>, taken: bool)
    requires Remaining(h, m, gone) && |gone| < |h.segs|
    requires if taken then Shrunk(m, m', h.segs[|gone|].base, End(h.segs[|gone|])) else m' == m
    ensures Remaining(h, m', gone + [taken])
  {
    var i, gone' := |gone|, gone + [taken];
    forall w
      ensures InTaken(h.segs, gone', w) <==> InTaken(h.segs, gone, w) || (taken && InSeg(h.segs[i], w))
    {
      if InTaken(h.segs, gone, w) {
        var j :| 0 <= j < |gone| && j < |h.segs| && gone[j] && InSeg(h.segs[j], w);
        assert gone'[j] == gone[j];
      }
      if taken && InSeg(h.segs[i], w) {
        assert gone'[i];
      }
    }
  }

  /** The sizes of the segments that have been given back. */
  function FreedTotal(segs: seq<Seg>, gone: seq<bool>): int
    requires |gone| <= |segs|
  {
    if gone == [] then 0
    else FreedTotal(segs, gone[..|gone| - 1]) + (if gone[|gone| - 1] then segs[|gone| - 1].size else 0)
  }

  /** What `destroy` adds up is at most the footprint. */
  lemma FreedBelow(h: Heap, gone: seq<bool>)
    requires Good(h, {}) && |gone| < |h.segs|
    ensures 0 <= FreedTotal(h.segs, gone) && h.segs[|gone|].size > 0
    ensures FreedTotal(h.segs, gone) + h.segs[|gone|].size <= Total(h.segs) < WORD_LIMIT
  {
    hide Good, Total, FreedTotal;
    FootprintBound(h, {});
    forall i | 0 <= i < |h.segs|
      ensures h.segs[i].size > 0
    {
      HeldSeg(h, {}, i);
    }
    FreedUpTo(h.segs, gone);
    PrefixTotal(h.segs, |gone|);
  }

  lemma PrefixTotal(segs: seq<Seg>, n: int)
    requires 0 <= n < |segs| && forall i :: 0 <= i < |segs| ==> segs[i].size > 0
    ensures Total(segs[..n]) + segs[n].size <= Total(segs)
  {
    var rest := segs[n + 1..];
    assert segs == segs[..n] + [segs[n]] + rest;
    TotalSplit(segs[..n] + [segs[n]], rest);
    TotalSplit(segs[..n], [segs[n]]);
    OneTotal(segs[n]);
    TotalPositive(rest);
  }

  lemma OneTotal(s: Seg)
    ensures Total([s]) == s.size
  {
  }

  lemma {:induction false} FreedUpTo(segs: seq<Seg>, gone: seq<bool>)
    requires |gone| <= |segs| && forall i :: 0 <= i < |segs| ==> segs[i].size > 0
    ensures 0 <= FreedTotal(segs, gone) <= Total(segs[..|gone|])
    decreases |gone|
  {
    if gone != [] {
      var n := |gone| - 1;
      FreedUpTo(segs, gone[..n]);
      TotalSplit(segs[..n], [segs[n]]);
      assert segs[..|gone|] == segs[..n] + [segs[n]];
      OneTotal(segs[n]);
    }
  }

  lemma {:induction false} TotalPositive(segs: seq<Seg>)
    requires forall i :: 0 <= i < |segs| ==> segs[i].size > 0
    ensures Total(segs) >= 0
  {
    if segs != [] {
      TotalPositive(segs[1..]);
    }
  }

  lemma FreedMore(segs: seq<Seg>, gone: seq<bool>, more: bool)
    requires |gone| < |segs|
    ensures FreedTotal(segs, gone + [more]) == FreedTotal(segs, gone) + (if more then segs[|gone|].size else 0)
  {
    assert (gone + [more])[..|gone|] == gone;
  }

  /** Before the first allocation the struct's record is all there is. */
  lemma NoSegmentWords(h: Heap)
    requires Good(h, {}) && h.segs == []
    ensures SEG in h.m && h.m[SEG] == 0 && SEG + SEG_SIZE in h.m && SEG + SEG_NEXT in h.m && h.m[SEG + SEG_NEXT] == 0
    ensures SEG + SEG_FLAGS in h.m
  {
    hide TagsOk, IndexOk, PartsOk, DomainOk, EndsOk;
  }

  lemma DoneAtEnd(h: Heap, i: int)
    requires Good(h, {}) && 0 <= i <= |h.segs| && h.segs != [] && RecAt(h.segs, i) == 0
    ensures i == |h.segs|
  {
    hide Good, Linked;
    TopHasSegment(h);
    GoodLinked(h, {});
    EndOfList(h.m, h.segs, i);
  }

  /**
   If the system took everything, nothing is held but the allocator's struct, and `footprint` bytes were given back.
   */
  lemma AllGone(segs: seq<Seg>, gone: seq<bool>)
    requires |gone| == |segs| && forall i :: 0 <= i < |gone| ==> gone[i]
    ensures FreedTotal(segs, gone) == Total(segs)
  {
    FreedPrefix(segs, gone);
    assert segs[..|segs|] == segs;
  }

  lemma {:induction false} FreedPrefix(segs: seq<Seg>, gone: seq<bool>)
    requires |gone| <= |segs| && forall i :: 0 <= i < |gone| ==> gone[i]
    ensures FreedTotal(segs, gone) == Total(segs[..|gone|])
  {
    if gone != [] {
      var n := |gone| - 1;
      FreedPrefix(segs, gone[..n]);
      assert segs[..n + 1] == segs[..n] + [segs[n]];
      TotalSplit(segs[..n], [segs[n]]);
      assert [segs[n]][1..] == [];
    }
  }
}
