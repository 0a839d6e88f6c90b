/**
 A region in front of an existing segment. It joins the segment as one block, from which `prepend_alloc` then cuts
 the requested chunk, handing the rest to the old first chunk.
 */
module Prepending {
  import opened Words
  import opened Memory
  import opened FreeIndex
  import opened IndexReads
  import opened Tiling
  import opened HeapState
  import opened HeapOps
  import opened Frames
  import opened Segments

  /** The new region as one block in front of the chunk at `oldbase`. */
  function WithFront(cs: map<int, Chunk>, tbase: int, oldbase: int): map<int, Chunk> {
    if oldbase !in cs then cs else
    var front := oldbase - tbase;
    cs[oldbase := cs[oldbase].(first := false)][tbase := Chunk(front, Live(front - CHUNK_OVERHEAD), true, true)]
  }

  ghost predicate RoomInFront(m: Mem, cs: map<int, Chunk>, tbase: int, oldbase: int) {
    && HEAP_START <= tbase && tbase % 16 == 0 && oldbase % 16 == 0
    && MIN_CHUNK_SIZE <= oldbase - tbase && oldbase < WORD_LIMIT
    && oldbase in cs && cs[oldbase].first && cs[oldbase].pin && !Ends(cs[oldbase].kind)
    && Held(m, tbase, oldbase) && m[tbase + HEAD] == Head(oldbase - tbase, true, true)
    && forall a :: a in cs ==> a + cs[a].size <= tbase || oldbase <= a
  }

  lemma FrontChunk(m: Mem, cs: map<int, Chunk>, tbase: int, oldbase: int, a: int)
    requires TagsOk(m, cs) && RoomInFront(m, cs, tbase, oldbase) && a in WithFront(cs, tbase, oldbase)
    ensures ChunkOk(m, WithFront(cs, tbase, oldbase), a)
  {
    hide TagsOk;
    if a != tbase {
      ChunkAt(m, cs, a);
      if !Ends(cs[a].kind) {
        ChunkAt(m, cs, a + cs[a].size);
      }
      if !cs[a].pin && !cs[a].kind.Foot? {
        ChunkAt(m, cs, a - m[a]);
      }
    }
  }

  lemma FrontApart(m: Mem, cs: map<int, Chunk>, tbase: int, oldbase: int, a: int, b: int)
    requires TagsOk(m, cs) && RoomInFront(m, cs, tbase, oldbase)
    requires a in WithFront(cs, tbase, oldbase) && b in WithFront(cs, tbase, oldbase) && a < b
    ensures a + WithFront(cs, tbase, oldbase)[a].size <= b
  {
    hide TagsOk;
    if b in cs && b != tbase {
      ChunkAt(m, cs, b);
      if a in cs && a != tbase {
        Beside(m, cs, a, b);
      }
    }
  }

  lemma FrontTags(m: Mem, cs: map<int, Chunk>, tbase: int, oldbase: int)
    requires TagsOk(m, cs) && RoomInFront(m, cs, tbase, oldbase)
    ensures TagsOk(m, WithFront(cs, tbase, oldbase))
  {
    hide ChunkOk, RoomInFront, WithFront;
    var cs' := WithFront(cs, tbase, oldbase);
    forall a | a in cs'
      ensures ChunkOk(m, cs', a)
    {
      hide TagsOk;
      FrontChunk(m, cs, tbase, oldbase, a);
    }
    forall a, b | a in cs' && b in cs' && a < b
      ensures a + cs'[a].size <= b
    {
      hide TagsOk;
      FrontApart(m, cs, tbase, oldbase, a, b);
    }
  }

  function Fronted(h: Heap, m': Mem, i: int, tbase: int): Heap {
    if i < 0 || i >= |h.segs| then h else
    var s := h.segs[i];
    h.(m := m', cs := WithFront(h.cs, tbase, s.base), segs := h.segs[i := Seg(tbase, End(s) - tbase, s.rec)])
  }

  /** The region has arrived and the record of the segment behind it has been updated. */
  ghost predicate FrontWritten(h: Heap, m': Mem, i: int, tbase: int) {
    && 0 <= i < |h.segs|
    && var s := h.segs[i];
    && HEAP_START <= tbase && tbase % 16 == 0 && MIN_CHUNK_SIZE <= s.base - tbase
    && (forall w :: w in m' <==> w in h.m || tbase <= w < s.base)
    && (forall w :: w in h.m ==> !(tbase <= w < s.base))
    && (forall w :: w in h.m && w != s.rec && w != s.rec + SEG_SIZE ==> m'[w] == h.m[w])
    && s.rec in m' && m'[s.rec] == tbase && s.rec + SEG_SIZE in m' && m'[s.rec + SEG_SIZE] == End(s) - tbase
    && m'[tbase + HEAD] == Head(s.base - tbase, true, true)
  }

  /** No other segment ends inside a segment. */
  lemma EndsOnly(h: Heap, i: int, e: int)
    requires Good(h, {}) && 0 <= i < |h.segs| && EndsSegment(h.segs, e) && h.segs[i].base < e <= End(h.segs[i])
    ensures e == End(h.segs[i])
  {
    hide Good;
    var j :| 0 <= j < |h.segs| && e == h.segs[j].base + h.segs[j].size;
    HeldSeg(h, {}, i);
    HeldSeg(h, {}, j);
    if j < i {
      SegsApartOf(h, {}, j, i);
    } else if i < j {
      SegsApartOf(h, {}, i, j);
    }
  }

  ghost predicate Starts(h: Heap, i: int) {
    0 <= i < |h.segs|
    && var b := h.segs[i].base; b in h.cs && h.cs[b].first && h.cs[b].pin && !Ends(h.cs[b].kind) && h.cs[b].size > 0
  }

  /** The first chunk of a segment is not its last. */
  lemma FirstNotEnd(h: Heap, i: int)
    requires Good(h, {}) && 0 <= i < |h.segs|
    ensures Starts(h, i)
  {
    hide Good, TagsOk, IndexOk, PartsOk, SegsOk, DomainOk, RecordOk, EndsSegment, KindOk;
    var s := h.segs[i];
    GoodParts(h, {});
    SegsRecord(h.m, h.cs, h.segs, i);
    HeadOf(h, {}, s.base);
    ReadTags(h, {}, s.base);
    var last := if i == 0 then End(s) - TOP_FOOT_SIZE else s.rec - MEM_OFFSET;
    GoodBeside(h, {}, s.base, last);
    ReadTags(h, {}, last);
    if i > 0 {
      ReadTags(h, {}, last + RECORD_SIZE);
    }
    hide SegOk, TagReads;
    if Ends(h.cs[s.base].kind) {
      EndsOnly(h, i, s.base + h.cs[s.base].size);
    }
  }

  /** A record is a chunk of its own, or lies in the allocator's struct. */
  ghost predicate RecordPlace(h: Heap, i: int) {
    && 0 <= i < |h.segs|
    && var r := h.segs[i].rec - MEM_OFFSET;
      (i == 0 ==> h.segs[0].rec == SEG) && (i > 0 ==> r in h.cs && h.cs[r].kind.Rec? && h.cs[r].size == RECORD_SIZE)
  }

  lemma PlaceRecord(h: Heap, holes: set<int>, i: int)
    requires Good(h, holes) && 0 <= i < |h.segs|
    ensures RecordPlace(h, i) && RecordOk(h.m, h.segs, i)
  {
    hide Good, TagsOk, IndexOk, PartsOk, SegsOk, DomainOk, EndsOk, RecordOk;
    GoodParts(h, holes);
    SegsRecord(h.m, h.cs, h.segs, i);
    if i > 0 {
      HeadOf(h, holes, h.segs[i].rec - MEM_OFFSET);
    }
  }

  /** A record lies in the segment it describes. */
  lemma RecordInside(h: Heap, holes: set<int>, i: int)
    requires Good(h, holes) && 0 < i < |h.segs|
    ensures h.segs[i].base + MEM_OFFSET <= h.segs[i].rec && h.segs[i].rec + 32 <= End(h.segs[i])
  {
    hide Good, TagsOk, IndexOk, PartsOk, SegsOk, DomainOk, EndsOk, RecordOk;
    GoodParts(h, holes);
    SegsRecord(h.m, h.cs, h.segs, i);
    ReadTags(h, holes, h.segs[i].rec - MEM_OFFSET + RECORD_SIZE);
  }

  lemma RecordsDiffer(h: Heap, holes: set<int>, i: int, j: int)
    requires Good(h, holes) && 0 <= i < |h.segs| && 0 <= j < |h.segs| && i != j
    ensures h.segs[i].rec + 32 <= h.segs[j].rec || h.segs[j].rec + 32 <= h.segs[i].rec
  {
    hide Good, RecordOk;
    if i == 0 || j == 0 {
      PlaceRecord(h, holes, 0);
      var k := if i == 0 then j else i;
      RecordInside(h, holes, k);
      HeldSeg(h, holes, k);
    } else {
      RecordInside(h, holes, i);
      RecordInside(h, holes, j);
      if j < i { SegsApartOf(h, holes, j, i); } else { SegsApartOf(h, holes, i, j); }
    }
  }

  /** Every other chunk keeps its words. */
  lemma FrontMisses(h: Heap, m': Mem, i: int, tbase: int, b: int)
    requires Good(h, {}) && FrontWritten(h, m', i, tbase) && b in h.cs
    ensures ChunkSame(h.m, m', b, h.cs[b])
    ensures h.cs[b].kind.Free? ==> BodySame(h.m, m', b, h.cs[b].size)
    ensures h.cs[b].kind.Live? || (h.cs[b].kind.Rec? && b + MEM_OFFSET != h.segs[i].rec) ==>
      SamePayload(h.m, m', b, h.cs[b].size)
  {
    hide Good, RecordOk;
    ReadTags(h, {}, b);
    PlaceRecord(h, {}, i);
    if h.cs[b].kind.Live? || h.cs[b].kind.Rec? {
      ReadTags(h, {}, b + h.cs[b].size);
    }
    if i > 0 {
      GoodBeside(h, {}, b, h.segs[i].rec - MEM_OFFSET);
    }
    hide TagReads;
  }

  lemma FrontUntouched(h: Heap, m': Mem, i: int, tbase: int)
    requires Good(h, {}) && FrontWritten(h, m', i, tbase)
    ensures Untouched(h.m, m', LiveOf(h.cs))
  {
    hide Good, FrontWritten, SamePayload, ChunkSame, BodySame;
    forall a | a in LiveOf(h.cs)
      ensures SamePayload(h.m, m', a, LiveOf(h.cs)[a].size)
    {
      FrontIndexOf(h, m', i, tbase);
      FrontMisses(h, m', i, tbase, a);
    }
  }

  lemma FrontIndexOf(h: Heap, m': Mem, i: int, tbase: int)
    requires FrontWritten(h, m', i, tbase)
    ensures 0 <= i < |h.segs|
  {
  }

  lemma FrontFrames(h: Heap, m': Mem, i: int, tbase: int)
    requires Good(h, {}) && FrontWritten(h, m', i, tbase)
    ensures IndexOk(m', h.smallmap, h.treemap, h.ix) && TagsOk(m', h.cs)
  {
    hide Good, FrontWritten, ChunkSame, BodySame, SamePayload, IndexOk, TagsOk;
    FrontIndexOf(h, m', i, tbase);
    GoodTags(h, {});
    forall b | b in h.cs
      ensures ChunkSame(h.m, m', b, h.cs[b])
      ensures h.cs[b].kind.Free? ==> BodySame(h.m, m', b, h.cs[b].size)
    {
      FrontMisses(h, m', i, tbase, b);
    }
    forall b | b in h.ix.sizes
      ensures BodySame(h.m, m', b, h.ix.sizes[b])
    {
      BinnedSize(h, {}, b);
    }
    assert BinsSame(h.m, m') by { FrontBins(h, m', i, tbase); }
    assert BodiesSame(h.m, m', h.ix.sizes) && TagsSame(h.m, m', h.cs);
    hide BodiesSame, TagsSame, BinsSame;
    IndexFrame(h.m, m', h.smallmap, h.treemap, h.ix);
    TagsFrame(h.m, m', h.cs);
  }

  lemma FrontBins(h: Heap, m': Mem, i: int, tbase: int)
    requires Good(h, {}) && FrontWritten(h, m', i, tbase)
    ensures BinsSame(h.m, m')
  {
    hide Good, RecordOk;
    PlaceRecord(h, {}, i);
    HeldStruct(h, {});
    if i > 0 {
      ReadTags(h, {}, h.segs[i].rec - MEM_OFFSET);
    }
    hide TagReads;
    assert forall w :: InStruct(w) ==> w in h.m by { hide FrontWritten; }
  }

  lemma FrontRoom(h: Heap, m': Mem, i: int, tbase: int)
    requires Good(h, {}) && FrontWritten(h, m', i, tbase)
    ensures RoomInFront(m', h.cs, tbase, h.segs[i].base)
  {
    hide Good, RecordOk, SegOk;
    FirstNotEnd(h, i);
    HeldSeg(h, {}, i);
    forall a | a in h.cs
      ensures a + h.cs[a].size <= tbase || h.segs[i].base <= a
    {
      ReadTags(h, {}, a);
      ApartFromRegion(h.m, a, a + h.cs[a].size, tbase, h.segs[i].base);
    }
  }

  /** Which chunks there are now. */
  lemma FrontAt(h: Heap, m': Mem, i: int, tbase: int, a: int)
    requires 0 <= i < |h.segs| && RoomInFront(m', h.cs, tbase, h.segs[i].base)
    requires forall b :: b in h.cs ==> h.cs[b].size > 0
    ensures var cs', oldbase := Fronted(h, m', i, tbase).cs, h.segs[i].base;
      && (a in cs' <==> a in h.cs || a == tbase) && tbase !in h.cs && oldbase in cs' && tbase in cs'
      && (a in h.cs ==> cs'[a] == h.cs[a].(first := cs'[a].first) && (a != oldbase ==> cs'[a] == h.cs[a]))
      && cs'[tbase] == Chunk(oldbase - tbase, Live(oldbase - tbase - CHUNK_OVERHEAD), true, true)
  {
  }

  lemma FrontParts(h: Heap, m': Mem, i: int, tbase: int)
    requires Good(h, {}) && FrontWritten(h, m', i, tbase)
    ensures PartsOk(Fronted(h, m', i, tbase), {})
    ensures var size := h.segs[i].base - tbase;
      && tbase !in h.cs
      && LiveOf(Fronted(h, m', i, tbase).cs) == LiveOf(h.cs)[tbase := Block(size, size - CHUNK_OVERHEAD)]
  {
    hide Good, FrontWritten, RoomInFront, TagsOk, IndexOk, PartsOk, SegsOk, DomainOk, EndsOk, Fronted;
    var h' := Fronted(h, m', i, tbase);
    FrontIndexOf(h, m', i, tbase);
    FrontRoom(h, m', i, tbase);
    SizesPositive(h, {});
    GoodParts(h, {});
    forall a
      ensures a in h'.cs <==> a in h.cs || a == tbase
      ensures a in h.cs ==> h'.cs[a] == h.cs[a].(first := h'.cs[a].first)
    {
      FrontAt(h, m', i, tbase, a);
    }
    FrontAt(h, m', i, tbase, tbase);
    FrontFields(h, m', i, tbase);
    assert TopOk(h'.cs, h'.top, h'.topsize) by { FrontTop(h, h', tbase); }
    PartsFrame(h, h', {});
    FrontLive(h.cs, h'.cs, tbase);
  }

  lemma FrontFields(h: Heap, m': Mem, i: int, tbase: int)
    requires 0 <= i < |h.segs|
    ensures var h' := Fronted(h, m', i, tbase);
      && h'.m == m' && h'.ix == h.ix && h'.smallmap == h.smallmap && h'.treemap == h.treemap && h'.dv == h.dv
      && h'.dvsize == h.dvsize && h'.top == h.top && h'.topsize == h.topsize
      && h'.cs == WithFront(h.cs, tbase, h.segs[i].base)
      && h'.segs == h.segs[i := Seg(tbase, End(h.segs[i]) - tbase, h.segs[i].rec)]
  {
  }

  lemma FrontTop(h: Heap, h': Heap, tbase: int)
    requires PartsOk(h, {}) && h.cs != map[] && h'.top == h.top && h'.topsize == h.topsize
    requires forall a :: a in h'.cs <==> a in h.cs || a == tbase
    requires forall a :: a in h.cs ==> h'.cs[a] == h.cs[a].(first := h'.cs[a].first)
    requires tbase in h'.cs && h'.cs[tbase].kind.Live?
    ensures TopOk(h'.cs, h'.top, h'.topsize)
  {
    hide BinnedOk, FreePlaced, VictimOk;
    var t := h.top;
    assert t != 0 && t in h.cs && h.cs[t].kind.Top? && h.cs[t].size == h.topsize;
    assert t in h'.cs && h'.cs[t] == h.cs[t].(first := h'.cs[t].first);
    forall a | a in h'.cs && h'.cs[a].kind.Top?
      ensures a == t
    {
      assert a in h.cs && h'.cs[a] == h.cs[a].(first := h'.cs[a].first);
    }
  }

  lemma FrontLive(cs: map<int, Chunk>, cs': map<int, Chunk>, tbase: int)
    requires forall a :: a in cs' <==> a in cs || a == tbase
    requires forall a :: a in cs ==> cs'[a] == cs[a].(first := cs'[a].first)
    requires tbase !in cs && tbase in cs' && cs'[tbase].kind.Live?
    ensures LiveOf(cs') == LiveOf(cs)[tbase := Block(cs'[tbase].size, cs'[tbase].kind.req)]
  {
    var live := LiveOf(cs)[tbase := Block(cs'[tbase].size, cs'[tbase].kind.req)];
    forall a
      ensures a in LiveOf(cs') <==> a in live
      ensures a in live ==> LiveOf(cs')[a] == live[a]
    {
      assert a in cs ==> cs'[a] == cs[a].(first := cs'[a].first);
    }
  }

  lemma FrontEnds(h: Heap, m': Mem, i: int, tbase: int)
    requires Good(h, {}) && FrontWritten(h, m', i, tbase)
    ensures var h' := Fronted(h, m', i, tbase); EndsOk(h'.cs, h'.segs, h'.top, h'.topsize)
  {
    hide Good, FrontWritten, RoomInFront, TagsOk, IndexOk, PartsOk, SegsOk, DomainOk, Fronted;
    var h' := Fronted(h, m', i, tbase);
    FrontIndexOf(h, m', i, tbase);
    FrontRoom(h, m', i, tbase);
    SizesPositive(h, {});
    GoodParts(h, {});
    FrontFields(h, m', i, tbase);
    assert tbase <= h.segs[i].base by { FrontBelow(h, m', i, tbase); }
    forall a | a in h'.cs && Ends(h'.cs[a].kind)
      ensures EndsSegment(h'.segs, a + h'.cs[a].size)
    {
      FrontAt(h, m', i, tbase, a);
      FrontAt(h, m', i, tbase, tbase);
      var j :| 0 <= j < |h.segs| && a + h.cs[a].size == h.segs[j].base + h.segs[j].size;
      assert h'.segs[j].base + h'.segs[j].size == h.segs[j].base + h.segs[j].size;
    }
  }

  lemma FrontBelow(h: Heap, m': Mem, i: int, tbase: int)
    requires FrontWritten(h, m', i, tbase)
    ensures tbase < h.segs[i].base && HEAP_START <= tbase && tbase % 16 == 0
    ensures forall w :: w in h.m ==> !(tbase <= w < h.segs[i].base)
    ensures forall w :: w in m' <==> w in h.m || tbase <= w < h.segs[i].base
  {
  }

  lemma FrontDomain(h: Heap, m': Mem, i: int, tbase: int)
    requires Good(h, {}) && FrontWritten(h, m', i, tbase)
    ensures Domain(m', Fronted(h, m', i, tbase).segs)
  {
    hide Good, FrontWritten, Fronted;
    FrontIndexOf(h, m', i, tbase);
    FrontBelow(h, m', i, tbase);
    FrontFields(h, m', i, tbase);
    HeldStruct(h, {});
    HeldSeg(h, {}, i);
    var segs' := Fronted(h, m', i, tbase).segs;
    forall w
      ensures w in m' <==> InStruct(w) || Covered(segs', w)
    {
      assert w in h.m <==> InStruct(w) || Covered(h.segs, w);
      if j :| 0 <= j < |h.segs| && InSeg(h.segs[j], w) {
        assert InSeg(segs'[j], w);
      }
      if tbase <= w < h.segs[i].base {
        assert InSeg(segs'[i], w);
      }
      if j :| 0 <= j < |segs'| && InSeg(segs'[j], w) {
        assert InSeg(h.segs[j], w) || tbase <= w < h.segs[i].base;
      }
    }
  }

  lemma FrontOwnSeg(h: Heap, m': Mem, i: int, tbase: int)
    requires 0 <= i < |h.segs| && RoomInFront(m', h.cs, tbase, h.segs[i].base) && SegOk(h.cs, h.segs[i], i == 0)
    requires forall b :: b in h.cs ==> h.cs[b].size > 0
    ensures SegOk(Fronted(h, m', i, tbase).cs, Seg(tbase, End(h.segs[i]) - tbase, h.segs[i].rec), i == 0)
  {
    var s, size := h.segs[i], End(h.segs[i]) - tbase;
    assert HEAP_START <= tbase < s.base && tbase % 16 == 0 && size % 16 == 0 && s.base % 16 == 0;
    FrontAt(h, m', i, tbase, tbase);
    if i == 0 {
      FrontAt(h, m', i, tbase, End(s) - TOP_FOOT_SIZE);
    } else {
      FrontAt(h, m', i, tbase, s.rec - MEM_OFFSET);
      FrontAt(h, m', i, tbase, s.rec - MEM_OFFSET + RECORD_SIZE);
    }
    hide RoomInFront, Fronted;
  }

  lemma FrontSeg(h: Heap, m': Mem, i: int, tbase: int, j: int)
    requires Good(h, {}) && FrontWritten(h, m', i, tbase) && 0 <= j < |h.segs|
    ensures |Fronted(h, m', i, tbase).segs| == |h.segs|
    ensures SegOk(Fronted(h, m', i, tbase).cs, Fronted(h, m', i, tbase).segs[j], j == 0)
  {
    hide Good, FrontWritten, RoomInFront, TagsOk, IndexOk, PartsOk, SegsOk, DomainOk, EndsOk, Fronted, RecordOk;
    var h' := Fronted(h, m', i, tbase);
    FrontIndexOf(h, m', i, tbase);
    FrontRoom(h, m', i, tbase);
    FrontBelow(h, m', i, tbase);
    SizesPositive(h, {});
    GoodParts(h, {});
    FrontFields(h, m', i, tbase);
    SegsRecord(h.m, h.cs, h.segs, j);
    hide SegOk;
    if j == i {
      FrontOwnSeg(h, m', i, tbase);
    } else {
      HeldSeg(h, {}, i);
      forall a | a in h.cs && InSeg(h.segs[j], a)
        ensures a in h'.cs && h'.cs[a] == h.cs[a]
      {
        FrontAt(h, m', i, tbase, a);
        if j < i { SegsApartOf(h, {}, j, i); } else { SegsApartOf(h, {}, i, j); }
      }
      SegKept(h.cs, h'.cs, h.segs[j], j == 0);
    }
  }

  lemma FrontRecord(h: Heap, m': Mem, i: int, tbase: int, j: int)
    requires Good(h, {}) && FrontWritten(h, m', i, tbase) && 0 <= j < |h.segs|
    ensures |Fronted(h, m', i, tbase).segs| == |h.segs|
    ensures RecordOk(m', Fronted(h, m', i, tbase).segs, j)
  {
    hide Good;
    FrontFields(h, m', i, tbase);
    PlaceRecord(h, {}, j);
    PlaceRecord(h, {}, i);
    if i > 0 {
      ReadTags(h, {}, h.segs[i].rec - MEM_OFFSET);
    }
    if j > 0 {
      ReadTags(h, {}, h.segs[j].rec - MEM_OFFSET);
    }
    if i != j {
      RecordsDiffer(h, {}, i, j);
    }
    hide TagReads;
  }

  lemma FrontSegs(h: Heap, m': Mem, i: int, tbase: int)
    requires Good(h, {}) && FrontWritten(h, m', i, tbase)
    ensures SegsOk(m', Fronted(h, m', i, tbase).cs, Fronted(h, m', i, tbase).segs)
  {
    hide Good, FrontWritten, Fronted, SegOk, RecordOk;
    var h' := Fronted(h, m', i, tbase);
    FrontIndexOf(h, m', i, tbase);
    FrontBelow(h, m', i, tbase);
    FrontFields(h, m', i, tbase);
    forall j | 0 <= j < |h'.segs|
      ensures SegOk(h'.cs, h'.segs[j], j == 0) && RecordOk(m', h'.segs, j)
    {
      FrontSeg(h, m', i, tbase, j);
      FrontRecord(h, m', i, tbase, j);
    }
    forall j, k | 0 <= j < k < |h'.segs|
      ensures SegsApart(h'.segs[j], h'.segs[k])
    {
      SegsApartOf(h, {}, j, k);
      HeldSeg(h, {}, j);
      HeldSeg(h, {}, k);
      ApartFromRegion(h.m, h.segs[j].base, End(h.segs[j]), tbase, h.segs[i].base);
      ApartFromRegion(h.m, h.segs[k].base, End(h.segs[k]), tbase, h.segs[i].base);
    }
    SegsFrom(m', h'.cs, h'.segs);
  }

  /** The region in front of a segment is a block of that segment now; nothing else has changed. */
  lemma FrontGood(h: Heap, m': Mem, i: int, tbase: int)
    requires Good(h, {}) && FrontWritten(h, m', i, tbase)
    ensures Good(Fronted(h, m', i, tbase), {}) && Untouched(h.m, m', LiveOf(h.cs))
    ensures tbase !in h.cs && LiveOf(Fronted(h, m', i, tbase).cs) - {tbase} == LiveOf(h.cs)
  {
    hide Good, FrontWritten, Fronted, LiveOf, Untouched, TagsOk, IndexOk, PartsOk, SegsOk, DomainOk, EndsOk, Domain,
         WithFront, RoomInFront;
    var h' := Fronted(h, m', i, tbase);
    FrontIndexOf(h, m', i, tbase);
    FrontFields(h, m', i, tbase);
    FrontFrames(h, m', i, tbase);
    FrontRoom(h, m', i, tbase);
    FrontTags(m', h.cs, tbase, h.segs[i].base);
    FrontUntouched(h, m', i, tbase);
    FrontParts(h, m', i, tbase);
    FrontSegs(h, m', i, tbase);
    FrontDomain(h, m', i, tbase);
    DomainIff(m', h'.segs);
    FrontEnds(h, m', i, tbase);
    GoodParts(h, {});
    assert tbase !in LiveOf(h.cs) by { NotLiveAt(h.cs, tbase); }
    GoodFrom(h', {});
  }

  lemma NotLiveAt(cs: map<int, Chunk>, a: int)
    requires a !in cs
    ensures a !in LiveOf(cs)
  {
  }

  // ---------- cutting the requested chunk from the front ----------

  /** Real memory does not hold the head of the whole region; the head of the requested chunk goes there at once. */
  function Poked(h: Heap, tbase: int, size: int): Heap {
    h.(m := h.m[tbase + HEAD := Head(size, true, true)])
  }

  /** The block at the front of a segment, before it is cut. */
  ghost predicate FrontBlock(h: Heap, holes: set<int>, tbase: int, oldbase: int, nb: int, req: int) {
    && Good(h, holes) && tbase in h.cs && h.cs[tbase].kind.Live? && h.cs[tbase].pin
    && tbase + h.cs[tbase].size == oldbase && nb + MIN_CHUNK_SIZE <= h.cs[tbase].size && Fits(req, nb)
  }

  ghost predicate FrontRun(h: Heap, tbase: int, oldbase: int, nb: int, req: int, more: set<int>) {
    var hi, q := FrontEnd(h, oldbase), tbase + nb;
    && RunOk(h, tbase, hi, {tbase} + more) && tbase < q < oldbase <= hi && q % 16 == 0 && hi % 16 == 0
    && hi in h.cs && Used(h.cs[hi].kind) && h.top !in {tbase} + more
    && KindOk(nb, Live(req)) && KindOk(hi - q, Free)
    && tbase + HEAD in h.m && Pinuse(h.m[tbase + HEAD]) && hi + HEAD in h.m
    && (oldbase < hi ==> !Pinuse(h.m[hi + HEAD]))
    && forall a :: a in more ==> a in h.cs && !h.cs[a].kind.Live?
  }

  lemma FrontRunUsed(h: Heap, tbase: int, oldbase: int, nb: int, req: int)
    requires FrontBlock(h, {}, tbase, oldbase, nb, req) && oldbase in h.cs && Used(h.cs[oldbase].kind)
    ensures FrontRun(h, tbase, oldbase, nb, req, {})
  {
    hide Good, RunOk, KindOk, HeadWord, Size, Pinuse, Cinuse, InuseBits, Ends;
    WhereFree(h, {}, tbase);
    RunOne(h, {}, tbase);
    ReadTags(h, {}, tbase);
    ReadTags(h, {}, oldbase);
    assert {tbase} + {} == {tbase};
    FitsKind(req, nb, nb);
    FreeKind(oldbase - tbase - nb);
  }

  lemma FrontRunFree(h: Heap, tbase: int, oldbase: int, nb: int, req: int)
    requires FrontBlock(h, {oldbase}, tbase, oldbase, nb, req) && oldbase in h.cs && !Used(h.cs[oldbase].kind)
    ensures FrontRun(h, tbase, oldbase, nb, req, {oldbase})
  {
    hide Good, RunOk, KindOk, HeadWord, Size, Pinuse, Cinuse, InuseBits, Ends;
    var hi := oldbase + h.cs[oldbase].size;
    WhereFree(h, {oldbase}, tbase);
    RunOne(h, {oldbase}, tbase);
    ReadTags(h, {oldbase}, tbase);
    HoleRun(h, {oldbase}, oldbase);
    RunJoin(h, tbase, oldbase, hi, {tbase}, {oldbase});
    FitsKind(req, nb, nb);
    FreeKind(hi - tbase - nb);
  }

  /** The chunk behind the front block is in use, or it is free and in hand: the rest of the front joins it. */
  lemma CutFront(h: Heap, holes: set<int>, tbase: int, oldbase: int, nb: int, req: int)
    requires FrontBlock(h, holes, tbase, oldbase, nb, req) && oldbase in h.cs
    requires if Used(h.cs[oldbase].kind) then holes == {} else holes == {oldbase}
    ensures FrontCut(h, tbase, oldbase, nb, FrontEnd(h, oldbase), req)
  {
    hide Good, RunOk, Untouched, LiveOf, KindOk, BlockAndFree, HeadWord, FrontEnd;
    var hi, q := FrontEnd(h, oldbase), tbase + nb;
    if Used(h.cs[oldbase].kind) {
      FrontRunUsed(h, tbase, oldbase, nb, req);
    } else {
      FrontRunFree(h, tbase, oldbase, nb, req);
    }
    RetilePinned(h.cs, tbase, q, hi, Live(req), Free);
    FrontPinned(h, tbase, q, hi, req);
    SplitRun(h, holes, tbase, q, hi, {tbase} + holes, req);
    assert holes - ({tbase} + holes) + {q} == {q};
    FrontForm(h, tbase, nb, hi, req);
    FreeNotLive(h.cs, tbase, holes);
  }

  lemma FrontPinned(h: Heap, lo: int, mid: int, hi: int, req: int)
    requires Pinned(Retile(h.cs, lo, mid, hi, Live(req), Free), lo)
    ensures Pinned(BlockAndFree(h, lo, mid, hi, req).cs, lo)
  {
  }

  function FrontEnd(h: Heap, oldbase: int): int {
    if oldbase in h.cs && !Used(h.cs[oldbase].kind) then oldbase + h.cs[oldbase].size else oldbase
  }

  lemma FreeNotLive(cs: map<int, Chunk>, tbase: int, more: set<int>)
    requires forall a :: a in more ==> a in cs && !cs[a].kind.Live?
    ensures LiveOf(cs) - ({tbase} + more) == LiveOf(cs) - {tbase}
  {
    forall a | a in LiveOf(cs)
      ensures a !in more
    {
    }
  }

  /** What cutting the front leaves: the rest is one free chunk in hand, up to `hi`. */
  ghost predicate FrontCut(h: Heap, tbase: int, oldbase: int, nb: int, hi: int, req: int) {
    var h', q := BlockAndFree(h, tbase, tbase + nb, hi, req), tbase + nb;
    && tbase + HEAD in h.m && q + HEAD in h.m && hi + HEAD in h.m && hi in h.m && tbase < q < oldbase <= hi
    && Good(h', {q}) && q in h'.cs && h'.cs[q].size == hi - q && Pinned(h'.cs, tbase)
    && LiveOf(h'.cs) == (LiveOf(h.cs) - {tbase})[tbase := Block(nb, req)]
    && Untouched(h.m, h'.m, LiveOf(h.cs) - {tbase})
    && h'.m == SetFreeWithPinuse(SetSizeAndPinuseOfInuseChunk(h.m, tbase, nb), q, hi - q, hi)
    && (oldbase < hi ==> h'.m == SetSizeAndPinuseOfFreeChunk(SetSizeAndPinuseOfInuseChunk(h.m, tbase, nb), q, hi - q))
  }

  lemma FrontForm(h: Heap, tbase: int, nb: int, hi: int, req: int)
    requires tbase + HEAD in h.m && Pinuse(h.m[tbase + HEAD])
    requires hi + HEAD in h.m && MIN_CHUNK_SIZE <= nb && tbase + nb < hi
    requires hi % 16 == 0 && (tbase + nb) % 16 == 0
    ensures var m, q := BlockAndFree(h, tbase, tbase + nb, hi, req).m, tbase + nb;
      && m == SetFreeWithPinuse(SetSizeAndPinuseOfInuseChunk(h.m, tbase, nb), q, hi - q, hi)
      && (!Pinuse(h.m[hi + HEAD]) ==>
            m == SetSizeAndPinuseOfFreeChunk(SetSizeAndPinuseOfInuseChunk(h.m, tbase, nb), q, hi - q))
  {
    hide Retile;
  }

  /** The chunk behind the front block is top. */
  lemma CutFrontTop(h: Heap, tbase: int, nb: int, req: int)
    requires FrontBlock(h, {}, tbase, h.top, nb, req) && h.top != 0
    ensures var h', q := BlockAndTop(h, tbase, tbase + nb, h.top + h.topsize, req), tbase + nb;
      var size := h.top + h.topsize - tbase - nb;
      && tbase + HEAD in h.m && q + HEAD in h.m
      && Good(h', {}) && Pinned(h'.cs, tbase)
      && LiveOf(h'.cs) == (LiveOf(h.cs) - {tbase})[tbase := Block(nb, req)]
      && Untouched(h.m, h'.m, LiveOf(h.cs) - {tbase})
      && h'.m == SetSizeAndPinuseOfInuseChunk(h.m, tbase, nb)[q + HEAD := Head(size, true, false)]
  {
    hide Good, RunOk, Untouched, LiveOf, KindOk, Retile, HeadWord;
    var hi, q := h.top + h.topsize, tbase + nb;
    Tail(h, {});
    WhereFree(h, {}, tbase);
    WhereFree(h, {}, h.top);
    RunOne(h, {}, tbase);
    RunOne(h, {}, h.top);
    RunJoin(h, tbase, h.top, hi, {tbase}, {h.top});
    ReadTags(h, {}, tbase);
    FitsKind(req, nb, nb);
    RetilePinned(h.cs, tbase, q, hi, Live(req), Top);
    SplitTop(h, {}, tbase, q, hi, {tbase} + {h.top}, req);
    assert {} - ({tbase} + {h.top}) == {};
    FreeNotLive(h.cs, tbase, {h.top});
  }

  /** The chunk cut from the front is a new block for the caller of `sys_alloc`. */
  lemma FrontAllocated(h: Heap, h1: Heap, h2: Heap, tbase: int, req: int, nb: int)
    requires LiveOf(h1.cs) - {tbase} == LiveOf(h.cs) && tbase % 16 == 0 && HEAP_START <= tbase && nb >= 0
    requires Untouched(h.m, h1.m, LiveOf(h.cs))
    requires LiveOf(h2.cs) == (LiveOf(h1.cs) - {tbase})[tbase := Block(nb, req)]
    requires Untouched(h1.m, h2.m, LiveOf(h1.cs) - {tbase}) && Pinned(h2.cs, tbase)
    ensures Allocated(h, h2, tbase, req, nb)
  {
    UntouchedTrans(h.m, h1.m, h2.m, LiveOf(h.cs));
  }

  // ---------- the head of the front block is never written ----------

  lemma PokeOutside(h: Heap, tbase: int, a: int)
    requires Good(h, {}) && tbase in h.cs && h.cs[tbase].kind.Live? && a in h.ix.sizes
    ensures tbase + HEAD < a || a + h.ix.sizes[a] <= tbase
  {
    hide Good;
    BinnedSize(h, {}, a);
    GoodBeside(h, {}, tbase, a);
    ReadTags(h, {}, tbase);
  }

  ghost predicate NotInBodies(sizes: map<int, int>, w: int) {
    forall a :: a in sizes ==> w < a || a + sizes[a] <= w
  }

  lemma PokeMisses(h: Heap, tbase: int)
    requires Good(h, {}) && tbase in h.cs && h.cs[tbase].kind.Live?
    ensures NotInBodies(h.ix.sizes, tbase + HEAD) && HEAP_START <= tbase && tbase + HEAD in h.m
  {
    hide Good;
    ReadTags(h, {}, tbase);
    forall a | a in h.ix.sizes
      ensures tbase + HEAD < a || a + h.ix.sizes[a] <= tbase + HEAD
    {
      PokeOutside(h, tbase, a);
    }
  }

  /** A word that belongs to no free chunk and no bin may hold anything. */
  lemma PokeIndex(m: Mem, m': Mem, smallmap: bv32, treemap: bv32, ix: Index, w: int)
    requires IndexOk(m, smallmap, treemap, ix) && NotInBodies(ix.sizes, w) && HEAP_START <= w
    requires m'.Keys == m.Keys && (forall x :: x in m && x != w ==> m'[x] == m[x])
    requires forall a :: a in ix.sizes ==> Held(m, a, a + ix.sizes[a])
    requires forall x :: InStruct(x) ==> x in m
    ensures IndexOk(m', smallmap, treemap, ix)
  {
    hide IndexOk;
    IndexFrame(m, m', smallmap, treemap, ix);
  }

  lemma BodiesHeld(h: Heap)
    requires Good(h, {})
    ensures forall a :: a in h.ix.sizes ==> Held(h.m, a, a + h.ix.sizes[a])
    ensures forall x :: InStruct(x) ==> x in h.m
  {
    hide Good;
    HeldStruct(h, {});
    forall a | a in h.ix.sizes
      ensures Held(h.m, a, a + h.ix.sizes[a])
    {
      BinnedSize(h, {}, a);
      ReadTags(h, {}, a);
    }
  }

  lemma PokedLinks(m: Mem, m': Mem, sizes: map<int, int>, w: int, v: int)
    requires OnlyLinks(m, m', sizes) && w in m
    ensures OnlyLinks(m[w := v], m'[w := v], sizes)
  {
    hide IsLink;
  }

  /** The chunk behind the front block. */
  ghost predicate BehindFront(h: Heap, tbase: int, oldbase: int) {
    && oldbase in h.cs && oldbase + HEAD in h.m && oldbase % 16 == 0 && tbase % 16 == 0
    && Inuse(h.m[oldbase + HEAD]) == (Used(h.cs[oldbase].kind) || h.cs[oldbase].kind.Foot?)
    && (h.cs[oldbase].kind.Free? ==> Size(h.m[oldbase + HEAD]) == h.cs[oldbase].size)
    && (h.cs[oldbase].kind.Free? <==> oldbase in h.ix.sizes || (oldbase == h.dv && h.dv != 0))
    && (oldbase in h.ix.sizes ==> h.ix.sizes[oldbase] == h.cs[oldbase].size)
    && (h.cs[oldbase].kind.Top? <==> oldbase == h.top) && oldbase != 0 && tbase + HEAD in h.m
    && !h.cs[oldbase].kind.Foot?
  }

  lemma ReadBehindFront(h: Heap, tbase: int, oldbase: int, nb: int, req: int)
    requires FrontBlock(h, {}, tbase, oldbase, nb, req)
    ensures BehindFront(h, tbase, oldbase)
  {
    hide Good;
    ReadNext(h, {}, tbase);
    ReadTags(h, {}, oldbase);
    ReadTags(h, {}, tbase);
    WhereFree(h, {}, oldbase);
  }

  /** The chunk behind the front block ends below the top of the address space. */
  lemma BehindFrontEnds(h: Heap, tbase: int, oldbase: int, nb: int, req: int)
    requires FrontBlock(h, {}, tbase, oldbase, nb, req)
    ensures HEAP_START <= tbase && oldbase in h.cs
    ensures 0 < h.cs[oldbase].size && oldbase + h.cs[oldbase].size < WORD_LIMIT
    ensures oldbase == h.top ==> h.cs[oldbase].size == h.topsize
    ensures oldbase == h.dv ==> h.cs[oldbase].size == h.dvsize
  {
    hide Good;
    ReadBehindFront(h, tbase, oldbase, nb, req);
    ChunkEnds(h, {}, tbase);
    ChunkEnds(h, {}, oldbase);
    VictimReads(h, {});
    if oldbase == h.top {
      Tail(h, {});
    }
  }

  /** A write of the front block's own head hides what was there. */
  lemma PokedOver(m: Mem, tbase: int, v: int, nb: int)
    ensures SetSizeAndPinuseOfInuseChunk(m[tbase + HEAD := v], tbase, nb) == SetSizeAndPinuseOfInuseChunk(m, tbase, nb)
  {
  }

  lemma FewerBodies(sizes: map<int, int>, fewer: map<int, int>, c: int, w: int)
    requires NotInBodies(sizes, w) && fewer == sizes - {c}
    ensures NotInBodies(fewer, w)
  {
  }

  lemma HeldToo(m: Mem, m': Mem, sizes: map<int, int>, fewer: map<int, int>, c: int)
    requires m'.Keys == m.Keys && fewer == sizes - {c} && forall a :: a in sizes ==> Held(m, a, a + sizes[a])
    ensures forall a :: a in fewer ==> Held(m', a, a + fewer[a])
  {
    forall a | a in fewer
      ensures Held(m', a, a + fewer[a])
    {
      assert Held(m, a, a + sizes[a]);
    }
  }

  lemma PokeBack(m: Mem, w: int, v: int)
    requires w in m
    ensures m[w := v][w := m[w]] == m && m[w := v].Keys == m.Keys
  {
  }

  lemma PokeReal(h: Heap, tbase: int, front: int)
    requires Good(Poked(h, tbase, front), {}) && tbase in h.cs && h.cs[tbase].kind.Live? && tbase + HEAD in h.m
    ensures IndexOk(h.m, h.smallmap, h.treemap, h.ix)
  {
    hide Good, IndexOk, NotInBodies, Held, Poked;
    var h1, w := Poked(h, tbase, front), tbase + HEAD;
    PokedFields(h, tbase, front);
    GoodIndex(h1, {});
    PokeMisses(h1, tbase);
    BodiesHeld(h1);
    PokeBack(h.m, w, Head(front, true, true));
    PokeIndex(h1.m, h1.m[w := h.m[w]], h.smallmap, h.treemap, h.ix, w);
  }

  lemma PokeUnlinked(h: Heap, h': Heap, chunk: int, tbase: int, front: int)
    requires Good(Poked(h, tbase, front), {}) && tbase in h.cs && h.cs[tbase].kind.Live? && tbase + HEAD in h.m
    requires chunk in h.ix.sizes && h'.ix.sizes == h.ix.sizes - {chunk} && OnlyLinks(h.m, h'.m, h.ix.sizes)
    requires IndexStep(h, h')
    ensures tbase + HEAD in h'.m && h'.m[tbase + HEAD] == h.m[tbase + HEAD]
    ensures Good(Poked(h', tbase, front), {chunk})
    ensures Untouched(Poked(h, tbase, front).m, Poked(h', tbase, front).m, LiveOf(h.cs))
  {
    hide Good, IndexOk, NotInBodies, Held, OnlyLinks, Untouched, LiveOf;
    var h1, h2, w, v := Poked(h, tbase, front), Poked(h', tbase, front), tbase + HEAD, Head(front, true, true);
    PokeMisses(h1, tbase);
    BodiesHeld(h1);
    SameKeys(h.m, h'.m, h.ix.sizes);
    FewerBodies(h.ix.sizes, h'.ix.sizes, chunk, w);
    HeldToo(h1.m, h'.m, h.ix.sizes, h'.ix.sizes, chunk);
    PokeIndex(h'.m, h'.m[w := v], h'.smallmap, h'.treemap, h'.ix, w);
    PokedLinks(h.m, h'.m, h.ix.sizes, w, v);
    LinksFit(h1);
    NotALink(h.m, h'.m, h.ix.sizes, w);
    assert IndexStep(h1, h2);
    hide IndexStep;
    UnlinkedGood(h1, h2, chunk, {});
    assert {} + {chunk} == {chunk};
  }

  lemma NotALink(m: Mem, m': Mem, sizes: map<int, int>, w: int)
    requires OnlyLinks(m, m', sizes) && NotInBodies(sizes, w) && w in m && HEAP_START <= w
    requires forall a :: a in sizes ==> LinkEnd(sizes[a]) <= sizes[a]
    ensures m'[w] == m[w]
  {
    hide LinkEnd;
  }

  lemma LinksFit(h: Heap)
    requires Good(h, {})
    ensures forall a :: a in h.ix.sizes ==> LinkEnd(h.ix.sizes[a]) <= h.ix.sizes[a]
  {
    hide Good;
    forall a | a in h.ix.sizes
      ensures LinkEnd(h.ix.sizes[a]) <= h.ix.sizes[a]
    {
      BinnedSize(h, {}, a);
      ReadTags(h, {}, a);
    }
  }

  lemma PokedFields(h: Heap, tbase: int, front: int)
    ensures Poked(h, tbase, front) == h.(m := h.m[tbase + HEAD := Head(front, true, true)])
  {
  }

  lemma FrontSizes(h: Heap, tbase: int, oldbase: int, nb: int, req: int)
    requires FrontBlock(h, {}, tbase, oldbase, nb, req)
    ensures tbase % 16 == 0 && oldbase % 16 == 0 && nb % 16 == 0 && MIN_CHUNK_SIZE <= nb
    ensures nb + MIN_CHUNK_SIZE <= oldbase - tbase && HEAP_START <= tbase && oldbase != 0
  {
    hide Good;
    ReadTags(h, {}, tbase);
    hide Pinuse, Cinuse, Size;
  }

  lemma PokedAgain(h: Heap, tbase: int, front: int, nb: int)
    ensures Poked(h.(m := SetSizeAndPinuseOfInuseChunk(h.m, tbase, nb)), tbase, front) == Poked(h, tbase, front)
  {
  }

  lemma PokedSize(h: Heap, tbase: int, front: int, nb: int)
    requires tbase + HEAD in h.m && h.m[tbase + HEAD] == Head(nb, true, true)
    ensures SetSizeAndPinuseOfInuseChunk(Poked(h, tbase, front).m, tbase, nb) == h.m
  {
  }

  /** The head word that is written for the requested chunk. */
  lemma FrontHead(m: Mem, tbase: int, nb: int)
    requires tbase + HEAD in m
    ensures var m' := SetSizeAndPinuseOfInuseChunk(m, tbase, nb);
      && m'.Keys == m.Keys && m'[tbase + HEAD] == Head(nb, true, true)
      && forall w :: w in m && w != tbase + HEAD ==> m'[w] == m[w]
  {
  }

  lemma UntouchedThen(m: Mem, m1: Mem, m2: Mem, live: map<int, Block>, more: map<int, Block>)
    requires Untouched(m, m1, live) && Untouched(m1, m2, more)
    requires forall a :: a in live ==> a in more && more[a].size == live[a].size
    ensures Untouched(m, m2, live)
  {
    UntouchedFewer(m1, m2, more, live);
    UntouchedTrans(m, m1, m2, live);
  }

  /** Lines 491-493 of `sys_alloc`: the region now belongs to the segment behind it. */
  function FrontWrites(m: Mem, rec: int, tbase: int, size: int): Mem {
    m[rec := tbase][rec + SEG_SIZE := size]
  }

  lemma FrontReady(h: Heap, m1: Mem, i: int, tbase: int)
    requires Good(h, {}) && 0 <= i < |h.segs| && Grown(h.m, m1, tbase, h.segs[i].base)
    requires HEAP_START <= tbase && tbase % 16 == 0 && MIN_CHUNK_SIZE <= h.segs[i].base - tbase
    ensures var s := h.segs[i];
      var m2 := FrontWrites(m1, s.rec, tbase, End(s) - tbase);
      && s.rec in m1 && s.rec + SEG_SIZE in m1 && m1[s.rec + SEG_SIZE] == s.size && tbase + HEAD in m2
      && FrontWritten(h, m2[tbase + HEAD := Head(s.base - tbase, true, true)], i, tbase)
  {
    hide Good;
    PlaceRecord(h, {}, i);
    if i > 0 {
      RecordInside(h, {}, i);
      HeldSeg(h, {}, i);
    }
  }

  lemma FrontIsBlock(h: Heap, m': Mem, i: int, tbase: int, nb: int, req: int)
    requires Good(h, {}) && FrontWritten(h, m', i, tbase) && Fits(req, nb)
    requires nb + MIN_CHUNK_SIZE <= h.segs[i].base - tbase
    ensures FrontBlock(Fronted(h, m', i, tbase), {}, tbase, h.segs[i].base, nb, req)
    ensures Untouched(h.m, m', LiveOf(h.cs)) && LiveOf(Fronted(h, m', i, tbase).cs) - {tbase} == LiveOf(h.cs)
  {
    hide Good, FrontWritten, Fronted, LiveOf, Untouched, RoomInFront, WithFront;
    FrontIndexOf(h, m', i, tbase);
    FrontGood(h, m', i, tbase);
    FrontRoom(h, m', i, tbase);
    SizesPositive(h, {});
    FrontAt(h, m', i, tbase, tbase);
  }
}
