/** The end of the head segment: top and the reserve behind it, and how the segment grows and shrinks there. */
module Segments {
  import opened Words
  import opened Memory
  import opened SizeClasses
  import opened FreeIndex
  import opened Tiling
  import opened HeapState
  import opened HeapOps
  import opened Frames

  function End(s: Seg): int { s.base + s.size }

  /** Outside `lo..hi` and the first segment record, held words keep their values. */
  ghost predicate SameOutside(m: Mem, m': Mem, lo: int, hi: int) {
    forall w :: w in m && !(lo <= w < hi) && !(SEG <= w < STRUCT_END) ==> SameAt(m, m', w)
  }

  /** Top and the reserve are the last two chunks of the head segment. */
  ghost predicate TailAt(h: Heap, f: int) {
    && h.segs != [] && h.top in h.cs && h.cs[h.top].kind.Top? && h.cs[h.top].size == h.topsize && h.topsize > 0
    && h.cs[h.top].pin && h.topsize % 16 == 0 && h.top % 16 == 0 && HEAP_START <= h.top
    && f == h.top + h.topsize && f in h.cs && h.cs[f].kind.Foot? && h.cs[f].size == TOP_FOOT_SIZE
    && f + TOP_FOOT_SIZE == End(h.segs[0]) && h.segs[0].base <= h.top
  }

  lemma Tail(h: Heap, holes: set<int>)
    requires Good(h, holes) && h.top != 0
    ensures TailAt(h, h.top + h.topsize)
  {
    hide TagsOk, IndexOk, PartsOk, SegsOk, DomainOk;
    var f := h.top + h.topsize;
    assert TopAndFoot(h, f) by {
      hide Good;
      BinnedInCs(h, holes);
      ReadNext(h, holes, h.top);
      HeadOf(h, holes, h.top);
      HeadOf(h, holes, f);
      ReadTags(h, holes, h.top);
    }
  }

  ghost predicate TopAndFoot(h: Heap, f: int) {
    && h.top in h.cs && h.cs[h.top].kind.Top? && h.cs[h.top].size == h.topsize && h.topsize > 0
    && h.cs[h.top].pin && h.topsize % 16 == 0 && h.top % 16 == 0 && HEAP_START <= h.top
    && f in h.cs && h.cs[f].kind.Foot? && h.cs[f].size == TOP_FOOT_SIZE
  }

  lemma TailOnly(h: Heap, holes: set<int>, a: int)
    requires Good(h, holes) && h.top != 0 && a in h.cs
    ensures var f := h.top + h.topsize;
      a == h.top || a == f || a + h.cs[a].size <= h.top || f + TOP_FOOT_SIZE <= a
  {
    hide Good;
    var f := h.top + h.topsize;
    Tail(h, holes);
    GoodBeside(h, holes, a, h.top);
    GoodBeside(h, holes, a, f);
    ReadTags(h, holes, a);
  }

  ghost predicate RangeSame(m: Mem, m': Mem, lo: int, hi: int) {
    forall w :: lo <= w < hi ==> w in m && w in m' && m'[w] == m[w]
  }

  lemma OutsideRange(m: Mem, m': Mem, lo: int, hi: int, a: int, b: int)
    requires SameOutside(m, m', lo, hi) && Held(m, a, b) && HEAP_START <= a && (b <= lo || hi <= a)
    ensures RangeSame(m, m', a, b)
  {
    forall w | a <= w < b
      ensures SameAt(m, m', w)
    {
      assert w in m && SameAt(m, m', w);
    }
  }

  /** Writes behind top's head miss every other chunk. */
  lemma TailMisses(h: Heap, m': Mem, holes: set<int>, a: int)
    requires Good(h, holes) && h.top != 0 && a in h.cs && a != h.top && a != h.top + h.topsize
    requires SameOutside(h.m, m', h.top + HEAD, h.top + h.topsize + TOP_FOOT_SIZE)
    ensures ChunkSame(h.m, m', a, h.cs[a])
    ensures h.cs[a].kind.Free? ==> BodySame(h.m, m', a, h.cs[a].size)
    ensures h.cs[a].kind.Live? || h.cs[a].kind.Rec? ==> SamePayload(h.m, m', a, h.cs[a].size)
  {
    hide Good, SameOutside;
    var lo, hi, n := h.top + HEAD, h.top + h.topsize + TOP_FOOT_SIZE, a + h.cs[a].size;
    TailOnly(h, holes, a);
    ReadTags(h, holes, a);
    Tail(h, holes);
    OutsideRange(h.m, m', lo, hi, a, n);
    if h.cs[a].kind.Live? || h.cs[a].kind.Rec? {
      ReadTags(h, holes, n);
      TailOnly(h, holes, n);
      assert Held(h.m, n, n + HEAD);
      OutsideRange(h.m, m', lo, hi, n, n + HEAD);
    }
  }

  /** The parts of the invariant that do not speak of the head segment's end. */
  ghost predicate TailKept(h: Heap, m': Mem) {
    && (forall a :: a in h.cs && a != h.top && a != h.top + h.topsize ==> ChunkSame(h.m, m', a, h.cs[a]))
    && IndexOk(m', h.smallmap, h.treemap, h.ix)
    && Untouched(h.m, m', LiveOf(h.cs))
    && (forall i :: 0 < i < |h.segs| ==> SameRecord(h.m, m', h.segs[i].rec))
  }

  lemma TailUntouched(h: Heap, m': Mem, holes: set<int>)
    requires Good(h, holes) && h.top != 0
    requires SameOutside(h.m, m', h.top + HEAD, h.top + h.topsize + TOP_FOOT_SIZE)
    ensures Untouched(h.m, m', LiveOf(h.cs))
  {
    hide Good, SameOutside, ChunkSame, BodySame, SamePayload;
    forall a | a in LiveOf(h.cs)
      ensures SamePayload(h.m, m', a, LiveOf(h.cs)[a].size)
    {
      Tail(h, holes);
      TailMisses(h, m', holes, a);
    }
  }

  lemma TailIndex(h: Heap, m': Mem, holes: set<int>)
    requires Good(h, holes) && h.top != 0
    requires SameOutside(h.m, m', h.top + HEAD, h.top + h.topsize + TOP_FOOT_SIZE)
    ensures IndexOk(m', h.smallmap, h.treemap, h.ix)
  {
    hide Good, SameOutside, ChunkSame, BodySame, SamePayload, IndexOk;
    forall b | b in h.ix.sizes
      ensures BodySame(h.m, m', b, h.ix.sizes[b])
    {
      BinnedSize(h, holes, b);
      Tail(h, holes);
      TailMisses(h, m', holes, b);
    }
    BinsOutside(h, m', holes);
    GoodIndex(h, holes);
    hide BinsSame;
    IndexFrame(h.m, m', h.smallmap, h.treemap, h.ix);
  }

  lemma TailFrame(h: Heap, m': Mem, holes: set<int>)
    requires Good(h, holes) && h.top != 0
    requires SameOutside(h.m, m', h.top + HEAD, h.top + h.topsize + TOP_FOOT_SIZE)
    ensures TailKept(h, m')
  {
    hide Good, SameOutside, ChunkSame, BodySame, SamePayload, IndexOk, SameRecord, Untouched, LiveOf, TagsOk;
    forall a | a in h.cs && a != h.top && a != h.top + h.topsize
      ensures ChunkSame(h.m, m', a, h.cs[a])
    {
      TailMisses(h, m', holes, a);
    }
    TailUntouched(h, m', holes);
    TailIndex(h, m', holes);
    forall i | 0 < i < |h.segs|
      ensures SameRecord(h.m, m', h.segs[i].rec)
    {
      GoodTags(h, holes);
      RecordChunk(h, holes, i);
      TailMisses(h, m', holes, h.segs[i].rec - MEM_OFFSET);
      RecordPayload(h.m, m', h.cs, h.segs[i].rec - MEM_OFFSET);
    }
  }

  lemma BinsOutside(h: Heap, m': Mem, holes: set<int>)
    requires Good(h, holes) && h.top != 0 && SameOutside(h.m, m', h.top + HEAD, h.top + h.topsize + TOP_FOOT_SIZE)
    ensures BinsSame(h.m, m')
  {
    assert HEAP_START <= h.top by { hide Good; Tail(h, holes); }
    hide TagsOk, IndexOk, PartsOk, SegsOk, EndsOk;
  }

  lemma RecordChunk(h: Heap, holes: set<int>, i: int)
    requires Good(h, holes) && 0 < i < |h.segs|
    ensures var r := h.segs[i].rec - MEM_OFFSET;
      r in h.cs && h.cs[r].kind.Rec? && r != h.top && r != h.top + h.topsize
  {
    hide TagsOk, IndexOk, DomainOk, EndsOk, RecordOk;
    assert SegOk(h.cs, h.segs[i], false);
    var r := h.segs[i].rec - MEM_OFFSET;
    hide SegsOk;
    assert h.top != 0 && r != h.top && r != h.top + h.topsize by { hide Good; GoodParts(h, holes); Tail(h, holes); }
  }

  // ---------- moving the end of the head segment ----------

  /** Top reaches up to `f'` now, and the reserve is there. */
  function MoveEnd(cs: map<int, Chunk>, top: int, f: int, f': int): map<int, Chunk> {
    if top !in cs then cs else
    (cs - {f})[top := cs[top].(size := f' - top)][f' := Chunk(TOP_FOOT_SIZE, Foot, false, false)]
  }

  ghost predicate CanMoveEnd(m: Mem, cs: map<int, Chunk>, m': Mem, top: int, f: int, f': int) {
    && top in cs && cs[top].kind.Top? && cs[top].pin && f == top + cs[top].size && f in cs && top < f
    && top < f' && f' % 16 == 0 && f' + TOP_FOOT_SIZE < WORD_LIMIT && Held(m', top, f' + TOP_FOOT_SIZE)
    && (forall a :: a in cs && a != top && a != f ==> ChunkSame(m, m', a, cs[a]))
    && top + HEAD in m' && m'[top + HEAD] == Head(f' - top, true, false)
    && f' + HEAD in m' && m'[f' + HEAD] == TOP_FOOT_SIZE
    && (forall a :: a in cs && a > top && a != f ==> f' + TOP_FOOT_SIZE <= a)
  }

  lemma MoveEndChunk(m: Mem, cs: map<int, Chunk>, m': Mem, top: int, f: int, f': int, a: int)
    requires TagsOk(m, cs) && CanMoveEnd(m, cs, m', top, f, f') && a in MoveEnd(cs, top, f, f')
    ensures ChunkOk(m', MoveEnd(cs, top, f, f'), a)
  {
    hide TagsOk, HeadWord;
    ChunkAt(m, cs, top);
    if a == top {
      assert HeadWord(cs[top].(size := f' - top)) == Head(f' - top, true, false) by { TopHead(cs[top], f' - top); }
    } else if a == f' {
      assert HeadWord(Chunk(TOP_FOOT_SIZE, Foot, false, false)) == TOP_FOOT_SIZE by { FootHead(); }
    } else {
      ChunkAt(m, cs, a);
      Beside(m, cs, a, top);
      Beside(m, cs, a, f);
      var n := a + cs[a].size;
      if !Ends(cs[a].kind) {
        ChunkAt(m, cs, n);
      }
    }
  }

  lemma TopHead(c: Chunk, size: int)
    requires c.kind.Top? && c.pin
    ensures HeadWord(c.(size := size)) == Head(size, true, false)
  {
  }

  lemma FootHead()
    ensures HeadWord(Chunk(TOP_FOOT_SIZE, Foot, false, false)) == TOP_FOOT_SIZE
  {
  }

  lemma MoveEndTags(m: Mem, cs: map<int, Chunk>, m': Mem, top: int, f: int, f': int)
    requires TagsOk(m, cs) && CanMoveEnd(m, cs, m', top, f, f')
    ensures TagsOk(m', MoveEnd(cs, top, f, f'))
  {
    var cs' := MoveEnd(cs, top, f, f');
    forall a | a in cs'
      ensures ChunkOk(m', cs', a)
    {
      hide TagsOk, ChunkOk, CanMoveEnd;
      MoveEndChunk(m, cs, m', top, f, f', a);
    }
    assert Disjoint(cs') by {
      hide ChunkOk, ChunkSame;
      forall a, b | a in cs' && b in cs' && a < b
        ensures a + cs'[a].size <= b
      {
        if a != f' && b != f' {
          Beside(m, cs, a, b);
          Beside(m, cs, top, b);
        } else {
          BesideNew(m, cs, m', top, f, f', a, b);
        }
      }
    }
  }

  lemma BesideNew(m: Mem, cs: map<int, Chunk>, m': Mem, top: int, f: int, f': int, a: int, b: int)
    requires TagsOk(m, cs) && CanMoveEnd(m, cs, m', top, f, f')
    requires a in MoveEnd(cs, top, f, f') && b in MoveEnd(cs, top, f, f') && a < b && (a == f' || b == f')
    ensures a + MoveEnd(cs, top, f, f')[a].size <= b
  {
    hide TagsOk, ChunkSame;
    if b == f' && a != top {
      Beside(m, cs, a, top);
      ChunkAt(m, cs, a);
    }
  }

  /** The state once the head segment ends `TOP_FOOT_SIZE` behind `f'`. */
  function EndMoved(h: Heap, m': Mem, f': int): Heap {
    if h.segs == [] then h else
    h.(m := m', cs := MoveEnd(h.cs, h.top, h.top + h.topsize, f'),
       segs := h.segs[0 := h.segs[0].(size := f' + TOP_FOOT_SIZE - h.segs[0].base)], topsize := f' - h.top)
  }

  lemma EndMovedFields(h: Heap, m': Mem, f': int)
    requires h.segs != []
    ensures var h' := EndMoved(h, m', f');
      && h'.m == m' && h'.ix == h.ix && h'.smallmap == h.smallmap && h'.treemap == h.treemap && h'.dv == h.dv
      && h'.dvsize == h.dvsize && h'.top == h.top && h'.topsize == f' - h.top
      && h'.segs == h.segs[0 := h.segs[0].(size := f' + TOP_FOOT_SIZE - h.segs[0].base)]
  {
  }

  ghost predicate CanMove(h: Heap, m': Mem, f': int) {
    && h.segs != []
    && CanMoveEnd(h.m, h.cs, m', h.top, h.top + h.topsize, f')
    && SameOutside(h.m, m', h.top + HEAD, h.top + h.topsize + TOP_FOOT_SIZE)
    && RecordOk(m', EndMoved(h, m', f').segs, 0) && Domain(m', EndMoved(h, m', f').segs)
    && forall j :: 0 < j < |h.segs| ==> SegsApart(EndMoved(h, m', f').segs[0], h.segs[j])
  }

  lemma CanMoveParts(h: Heap, m': Mem, f': int)
    requires CanMove(h, m', f')
    ensures h.segs != [] && CanMoveEnd(h.m, h.cs, m', h.top, h.top + h.topsize, f')
    ensures SameOutside(h.m, m', h.top + HEAD, h.top + h.topsize + TOP_FOOT_SIZE)
    ensures var segs' := EndMoved(h, m', f').segs;
      && RecordOk(m', segs', 0) && Domain(m', segs') && segs'[0].base == h.segs[0].base
      && End(segs'[0]) == f' + TOP_FOOT_SIZE && segs'[0].rec == h.segs[0].rec
  {
    hide CanMoveEnd, SameOutside, RecordOk, Domain;
  }

  lemma CanMoveApart(h: Heap, m': Mem, f': int, j: int)
    requires CanMove(h, m', f') && 0 < j < |h.segs|
    ensures SegsApart(EndMoved(h, m', f').segs[0], h.segs[j])
  {
    hide CanMoveEnd, SameOutside, RecordOk, Domain;
  }

  lemma MovedAt(m: Mem, cs: map<int, Chunk>, m': Mem, top: int, f: int, f': int, a: int)
    requires CanMoveEnd(m, cs, m', top, f, f')
    ensures var cs' := MoveEnd(cs, top, f, f');
      && (a in cs' <==> (a in cs && a != f) || a == f')
      && (a in cs && a != f && a != top ==> a in cs' && cs'[a] == cs[a] && a != f')
      && cs'[top] == cs[top].(size := f' - top) && cs'[f'] == Chunk(TOP_FOOT_SIZE, Foot, false, false)
  {
    hide ChunkSame;
  }

  lemma MoveEndParts(h: Heap, m': Mem, f': int)
    requires Good(h, {}) && h.top != 0 && CanMoveEnd(h.m, h.cs, m', h.top, h.top + h.topsize, f')
    ensures PartsOk(EndMoved(h, m', f'), {})
  {
    hide Good, TagsOk, IndexOk, PartsOk, SegsOk, DomainOk, EndsOk, CanMoveEnd, MoveEnd;
    Tail(h, {});
    GoodParts(h, {});
    var h', f := EndMoved(h, m', f'), h.top + h.topsize;
    forall a
      ensures a in h.cs && a != f && a != h.top ==> a in h'.cs && h'.cs[a] == h.cs[a]
      ensures a in h'.cs ==> a == f' || a == h.top || (a in h.cs && h'.cs[a] == h.cs[a])
    {
      MovedAt(h.m, h.cs, m', h.top, f, f', a);
    }
    MovedAt(h.m, h.cs, m', h.top, f, f', h.top);
    TheTop(h, {});
    PartsFrame(h, h', {});
  }

  lemma TheTop(h: Heap, holes: set<int>)
    requires PartsOk(h, holes)
    ensures forall a :: a in h.cs && h.cs[a].kind.Top? ==> a == h.top
  {
  }

  lemma MoveEndLive(h: Heap, m': Mem, f': int)
    requires Good(h, {}) && h.top != 0 && CanMoveEnd(h.m, h.cs, m', h.top, h.top + h.topsize, f')
    ensures LiveOf(EndMoved(h, m', f').cs) == LiveOf(h.cs)
  {
    hide Good;
    Tail(h, {});
    var h', f := EndMoved(h, m', f'), h.top + h.topsize;
    hide CanMoveEnd, MoveEnd;
    forall a
      ensures a in h.cs && a != f && a != h.top ==> a in h'.cs && h'.cs[a] == h.cs[a]
      ensures a in h'.cs ==> a == f' || a == h.top || (a in h.cs && h'.cs[a] == h.cs[a])
    {
      MovedAt(h.m, h.cs, m', h.top, f, f', a);
    }
    MovedAt(h.m, h.cs, m', h.top, f, f', h.top);
    forall a
      ensures a in LiveOf(h'.cs) <==> a in LiveOf(h.cs)
      ensures a in LiveOf(h.cs) ==> LiveOf(h'.cs)[a] == LiveOf(h.cs)[a]
    {
    }
  }

  lemma OtherSegment(h: Heap, j: int, a: int)
    requires Good(h, {}) && 0 < j < |h.segs| && InSeg(h.segs[j], a)
    ensures a != h.top && a != h.top + h.topsize
  {
    hide TagsOk, IndexOk, PartsOk, DomainOk, RecordOk;
    assert SegsApart(h.segs[0], h.segs[j]);
    assert SegOk(h.cs, h.segs[0], true);
    assert TailAt(h, h.top + h.topsize) by { hide Good; GoodParts(h, {}); Tail(h, {}); }
  }

  lemma SizesPositive(h: Heap, holes: set<int>)
    requires Good(h, holes)
    ensures forall a :: a in h.cs ==> h.cs[a].size > 0
  {
    hide Good;
    forall a | a in h.cs
      ensures h.cs[a].size > 0
    {
      ReadTags(h, holes, a);
    }
  }

  lemma MoveEndSeg(h: Heap, m': Mem, f': int, j: int)
    requires Good(h, {}) && h.top != 0 && CanMove(h, m', f') && 0 <= j < |h.segs|
    ensures SegOk(EndMoved(h, m', f').cs, EndMoved(h, m', f').segs[j], j == 0)
  {
    hide Good, CanMove, CanMoveEnd, MoveEnd, TagsOk, IndexOk, PartsOk, SegsOk, DomainOk, EndsOk, Domain, SameOutside,
         RecordOk;
    var cs', f := EndMoved(h, m', f').cs, h.top + h.topsize;
    GoodParts(h, {});
    CanMoveParts(h, m', f');
    SegsRecord(h.m, h.cs, h.segs, j);
    Tail(h, {});
    if j == 0 {
      MovedAt(h.m, h.cs, m', h.top, f, f', h.segs[0].base);
      MovedAt(h.m, h.cs, m', h.top, f, f', f');
      assert f' > h.top && f' + TOP_FOOT_SIZE < WORD_LIMIT && f' % 16 == 0 by {
        MoveBounds(h.m, h.cs, m', h.top, f, f');
      }
    } else {
      hide SegOk;
      forall a | a in h.cs && InSeg(h.segs[j], a)
        ensures a in cs' && cs'[a] == h.cs[a]
      {
        OtherSegment(h, j, a);
        MovedAt(h.m, h.cs, m', h.top, f, f', a);
      }
      SizesPositive(h, {});
      SegKept(h.cs, cs', h.segs[j], false);
    }
  }

  lemma MoveBounds(m: Mem, cs: map<int, Chunk>, m': Mem, top: int, f: int, f': int)
    requires CanMoveEnd(m, cs, m', top, f, f')
    ensures f' > top && f' + TOP_FOOT_SIZE < WORD_LIMIT && f' % 16 == 0
  {
    hide ChunkSame;
  }

  lemma MoveEndSegs(h: Heap, m': Mem, f': int)
    requires Good(h, {}) && h.top != 0 && CanMove(h, m', f')
    ensures SegsOk(m', EndMoved(h, m', f').cs, EndMoved(h, m', f').segs)
  {
    hide Good, CanMove, CanMoveEnd, MoveEnd, SegOk, SegsOk, SameOutside, RecordOk, SameRecord, Domain, TailKept, TagsOk,
         IndexOk, PartsOk, DomainOk, EndsOk;
    var h' := EndMoved(h, m', f');
    GoodParts(h, {});
    CanMoveParts(h, m', f');
    TailFrame(h, m', {});
    forall i | 0 <= i < |h'.segs|
      ensures SegOk(h'.cs, h'.segs[i], i == 0) && RecordOk(m', h'.segs, i)
    {
      MoveEndSeg(h, m', f', i);
      if i > 0 {
        assert SameRecord(h.m, m', h.segs[i].rec) by { TailRecord(h, m', i); }
        SegsRecord(h.m, h.cs, h.segs, i);
        RecordKept(h.m, m', h.segs, h'.segs, i, i);
      }
    }
    forall i, j | 0 <= i < j < |h'.segs|
      ensures SegsApart(h'.segs[i], h'.segs[j])
    {
      SegsPair(h.m, h.cs, h.segs, i, j);
      CanMoveApart(h, m', f', j);
    }
    SegsFrom(m', h'.cs, h'.segs);
  }

  lemma TailRecord(h: Heap, m': Mem, i: int)
    requires TailKept(h, m') && 0 < i < |h.segs|
    ensures SameRecord(h.m, m', h.segs[i].rec)
  {
  }

  lemma SegsRecord(m: Mem, cs: map<int, Chunk>, segs: seq<Seg>, i: int)
    requires SegsOk(m, cs, segs) && 0 <= i < |segs|
    ensures RecordOk(m, segs, i) && SegOk(cs, segs[i], i == 0)
  {
  }

  lemma SegsPair(m: Mem, cs: map<int, Chunk>, segs: seq<Seg>, i: int, j: int)
    requires SegsOk(m, cs, segs) && 0 <= i < j < |segs|
    ensures SegsApart(segs[i], segs[j])
  {
  }

  lemma SegsFrom(m: Mem, cs: map<int, Chunk>, segs: seq<Seg>)
    requires segs != []
    requires forall i :: 0 <= i < |segs| ==> SegOk(cs, segs[i], i == 0) && RecordOk(m, segs, i)
    requires forall i, j :: 0 <= i < j < |segs| ==> SegsApart(segs[i], segs[j])
    ensures SegsOk(m, cs, segs)
  {
    hide SegOk, RecordOk;
  }

  lemma MoveEndEnds(h: Heap, m': Mem, f': int)
    requires Good(h, {}) && h.top != 0 && CanMove(h, m', f')
    ensures var h' := EndMoved(h, m', f'); EndsOk(h'.cs, h'.segs, h'.top, h'.topsize)
  {
    hide Good, CanMove, CanMoveEnd, MoveEnd, SegOk, SegsOk, SameOutside, RecordOk, Domain, TagsOk, IndexOk, PartsOk,
         DomainOk;
    var h', f := EndMoved(h, m', f'), h.top + h.topsize;
    GoodParts(h, {});
    CanMoveParts(h, m', f');
    Tail(h, {});
    MovedAt(h.m, h.cs, m', h.top, f, f', h.top);
    forall a | a in h'.cs && Ends(h'.cs[a].kind)
      ensures EndsSegment(h'.segs, a + h'.cs[a].size)
    {
      MovedAt(h.m, h.cs, m', h.top, f, f', a);
      if a == f' {
        assert a + h'.cs[a].size == h'.segs[0].base + h'.segs[0].size;
      } else {
        TailOnly(h, {}, a);
        ReadTags(h, {}, a);
        var i :| 0 <= i < |h.segs| && a + h.cs[a].size == h.segs[i].base + h.segs[i].size;
        assert i > 0 && h'.segs[i] == h.segs[i];
      }
    }
  }

  /** Moving the end of the head segment keeps the invariant. */
  lemma MoveEndGood(h: Heap, m': Mem, f': int)
    requires Good(h, {}) && h.top != 0 && CanMove(h, m', f')
    ensures Good(EndMoved(h, m', f'), {}) && Untouched(h.m, m', LiveOf(h.cs))
    ensures LiveOf(EndMoved(h, m', f').cs) == LiveOf(h.cs)
  {
    hide Good, CanMove, LiveOf, Untouched, CanMoveEnd, SameOutside, MoveEnd, Domain, TagsOk, IndexOk, PartsOk, SegsOk,
         DomainOk, EndsOk, RecordOk;
    var h' := EndMoved(h, m', f');
    CanMoveParts(h, m', f');
    GoodParts(h, {});
    MoveEndTags(h.m, h.cs, m', h.top, h.top + h.topsize, f');
    assert IndexOk(m', h.smallmap, h.treemap, h.ix) && Untouched(h.m, m', LiveOf(h.cs)) by { TailFrame(h, m', {}); }
    MoveEndParts(h, m', f');
    MoveEndLive(h, m', f');
    MoveEndSegs(h, m', f');
    DomainIff(m', h'.segs);
    MoveEndEnds(h, m', f');
    GoodFrom(h', {});
  }

  // ---------- appending a region, trimming top ----------

  /** The system has supplied the region `lo..hi`, which held no memory before. */
  ghost predicate Grown(m: Mem, m': Mem, lo: int, hi: int) {
    && (forall w :: w in m' <==> w in m || lo <= w < hi)
    && (forall w :: w in m ==> !(lo <= w < hi) && m'[w] == m[w])
  }

  /** The system has taken back `lo..hi`. */
  ghost predicate Shrunk(m: Mem, m': Mem, lo: int, hi: int) {
    && (forall w :: w in m' <==> w in m && !(lo <= w < hi))
    && (forall w :: w in m' ==> m'[w] == m[w])
  }

  /** The writes of `sys_alloc` and `sys_trim`: the new size of the head segment, then `init_top`. */
  function TopWrites(m: Mem, segsize: int, top: int, topsize: int): Mem {
    m[SEG + SEG_SIZE := segsize][top + HEAD := Head(topsize, true, false)][top + topsize + HEAD := TOP_FOOT_SIZE]
  }

  lemma HeldSeg(h: Heap, holes: set<int>, j: int)
    requires Good(h, holes) && 0 <= j < |h.segs|
    ensures Held(h.m, h.segs[j].base, End(h.segs[j])) && h.segs[j].base < End(h.segs[j])
    ensures HEAP_START <= h.segs[j].base && End(h.segs[j]) < WORD_LIMIT
    ensures h.segs[j].base % 16 == 0 && End(h.segs[j]) % 16 == 0
    ensures RecordOk(h.m, h.segs, j)
  {
    hide TagsOk, IndexOk, PartsOk, EndsOk, RecordOk;
    assert SegOk(h.cs, h.segs[j], j == 0);
    if j > 0 {
      SizesPositive(h, holes);
    }
  }

  lemma HeldStruct(h: Heap, holes: set<int>)
    requires Good(h, holes)
    ensures Domain(h.m, h.segs)
  {
    hide TagsOk, IndexOk, PartsOk, EndsOk, SegsOk;
    DomainIff(h.m, h.segs);
  }

  lemma ApartFromRegion(m: Mem, a: int, b: int, lo: int, hi: int)
    requires Held(m, a, b) && a < b && lo < hi && forall w :: w in m ==> !(lo <= w < hi)
    ensures b <= lo || hi <= a
  {
    var w := if a < lo then lo else a;
    assert a <= w < b ==> w in m;
  }

  lemma SegsApartOf(h: Heap, holes: set<int>, i: int, j: int)
    requires Good(h, holes) && 0 <= i < j < |h.segs|
    ensures SegsApart(h.segs[i], h.segs[j])
  {
    hide TagsOk, IndexOk, PartsOk, EndsOk, DomainOk;
  }

  lemma AppendDomain(h: Heap, m1: Mem, m': Mem, f': int)
    requires Domain(h.m, h.segs) && h.segs != []
    requires Grown(h.m, m1, End(h.segs[0]), f' + TOP_FOOT_SIZE) && m'.Keys == m1.Keys
    requires h.segs[0].base < End(h.segs[0]) < f' + TOP_FOOT_SIZE
    ensures Domain(m', EndMoved(h, m', f').segs)
  {
    var segs, segs' := h.segs, EndMoved(h, m', f').segs;
    forall w
      ensures w in m' <==> InStruct(w) || Covered(segs', w)
    {
      if i :| 0 <= i < |segs| && InSeg(segs[i], w) {
        assert InSeg(segs'[i], w);
      }
      if i :| 0 <= i < |segs'| && InSeg(segs'[i], w) {
        assert InSeg(segs[i], w) || End(segs[0]) <= w < f' + TOP_FOOT_SIZE;
      }
      if End(segs[0]) <= w < f' + TOP_FOOT_SIZE {
        assert InSeg(segs'[0], w);
      }
      assert w in h.m <==> InStruct(w) || Covered(segs, w);
    }
  }

  ghost predicate Appended(h: Heap, m1: Mem, m': Mem, tsize: int) {
    && h.top != 0 && h.segs != [] && tsize > 0 && tsize % 16 == 0
    && Grown(h.m, m1, End(h.segs[0]), End(h.segs[0]) + tsize) && End(h.segs[0]) + tsize < WORD_LIMIT
    && m' == TopWrites(m1, h.segs[0].size + tsize, h.top, h.topsize + tsize)
  }

  lemma AppendWrites(h: Heap, m1: Mem, m': Mem, tsize: int)
    requires Good(h, {}) && Appended(h, m1, m', tsize)
    ensures SameOutside(h.m, m', h.top + HEAD, End(h.segs[0])) && m'.Keys == m1.Keys
    ensures Held(m', h.top, End(h.segs[0]) + tsize)
    ensures var f' := h.top + h.topsize + tsize;
      && h.top + HEAD in m' && m'[h.top + HEAD] == Head(f' - h.top, true, false)
      && f' + HEAD in m' && m'[f' + HEAD] == TOP_FOOT_SIZE
      && RecordOk(m', EndMoved(h, m', f').segs, 0)
  {
    hide Good, RecordOk;
    Tail(h, {});
    HeldSeg(h, {}, 0);
    HeadRecordHeld(h);
    assert m'.Keys == m1.Keys;
    HeadRecord(h, m', h.top + h.topsize + tsize);
  }

  lemma AppendMoves(h: Heap, m1: Mem, m': Mem, tsize: int)
    requires Good(h, {}) && Appended(h, m1, m', tsize)
    ensures CanMoveEnd(h.m, h.cs, m', h.top, h.top + h.topsize, h.top + h.topsize + tsize)
  {
    hide Good, RecordOk, SameOutside, TopWrites, Grown, ChunkSame;
    var e := End(h.segs[0]);
    AppendWrites(h, m1, m', tsize);
    Tail(h, {});
    assert TailKept(h, m') by { TailFrame(h, m', {}); }
    TailChunks(h, m');
    hide TailKept;
    forall a | a in h.cs && a > h.top && a != h.top + h.topsize
      ensures e + tsize <= a
    {
      TailOnly(h, {}, a);
      ReadTags(h, {}, a);
      NotInRegion(h.m, m1, a, e, e + tsize);
    }
  }

  lemma NotInRegion(m: Mem, m1: Mem, a: int, lo: int, hi: int)
    requires Grown(m, m1, lo, hi) && a in m
    ensures a < lo || hi <= a
  {
  }

  /** `sys_alloc` puts a region behind the head segment. */
  lemma AppendCan(h: Heap, m1: Mem, m': Mem, tsize: int)
    requires Good(h, {}) && Appended(h, m1, m', tsize)
    ensures CanMove(h, m', h.top + h.topsize + tsize)
  {
    hide Good, RecordOk, Covered, Domain, SameOutside, CanMoveEnd, TopWrites, Grown, Held;
    var e, f' := End(h.segs[0]), h.top + h.topsize + tsize;
    AppendWrites(h, m1, m', tsize);
    AppendMoves(h, m1, m', tsize);
    Tail(h, {});
    HeldSeg(h, {}, 0);
    HeldStruct(h, {});
    AppendDomain(h, m1, m', f');
    forall j | 0 < j < |h.segs|
      ensures SegsApart(EndMoved(h, m', f').segs[0], h.segs[j])
    {
      HeldSeg(h, {}, j);
      SegsApartOf(h, {}, 0, j);
      SegNotInRegion(h.m, m1, h.segs[j], e, e + tsize);
    }
  }

  lemma SegNotInRegion(m: Mem, m1: Mem, s: Seg, lo: int, hi: int)
    requires Grown(m, m1, lo, hi) && Held(m, s.base, End(s)) && s.base < End(s) && lo < hi
    ensures End(s) <= lo || hi <= s.base
  {
    ApartFromRegion(m, s.base, End(s), lo, hi);
  }

  lemma TailChunks(h: Heap, m': Mem)
    requires TailKept(h, m')
    ensures forall a :: a in h.cs && a != h.top && a != h.top + h.topsize ==> ChunkSame(h.m, m', a, h.cs[a])
  {
  }

  lemma HeadRecordHeld(h: Heap)
    requires h.segs != [] && RecordOk(h.m, h.segs, 0) && Good(h, {})
    ensures h.segs[0].rec == SEG && SEG in h.m && SEG + SEG_SIZE in h.m
    ensures SEG + SEG_NEXT in h.m && SEG + SEG_FLAGS in h.m
  {
    hide TagsOk, IndexOk, PartsOk, EndsOk, DomainOk;
    assert SegOk(h.cs, h.segs[0], true);
  }

  /** The head segment's record with its new size. */
  lemma HeadRecord(h: Heap, m': Mem, f': int)
    requires h.segs != [] && Good(h, {}) && RecordOk(h.m, h.segs, 0)
    requires SameAt(h.m, m', SEG) && SameAt(h.m, m', SEG + SEG_NEXT) && SameAt(h.m, m', SEG + SEG_FLAGS)
    requires SEG + SEG_SIZE in m' && m'[SEG + SEG_SIZE] == f' + TOP_FOOT_SIZE - h.segs[0].base
    ensures RecordOk(m', EndMoved(h, m', f').segs, 0)
  {
    hide Good, MoveEnd;
    HeadRecordHeld(h);
  }

  // ---------- trimming ----------

  ghost predicate Trimmed(h: Heap, m1: Mem, m': Mem, extra: int) {
    && h.top != 0 && h.segs != [] && 0 < extra < h.topsize && extra % 16 == 0
    && Shrunk(h.m, m1, End(h.segs[0]) - extra, End(h.segs[0]))
    && m' == TopWrites(m1, h.segs[0].size - extra, h.top, h.topsize - extra)
  }

  lemma TrimWrites(h: Heap, m1: Mem, m': Mem, extra: int)
    requires Good(h, {}) && Trimmed(h, m1, m', extra)
    ensures SameOutside(h.m, m', h.top + HEAD, End(h.segs[0])) && m'.Keys == m1.Keys
    ensures Held(m', h.top, End(h.segs[0]) - extra)
    ensures var f' := h.top + h.topsize - extra;
      && h.top + HEAD in m' && m'[h.top + HEAD] == Head(f' - h.top, true, false)
      && f' + HEAD in m' && m'[f' + HEAD] == TOP_FOOT_SIZE
      && RecordOk(m', EndMoved(h, m', f').segs, 0)
  {
    hide Good, RecordOk;
    Tail(h, {});
    HeldSeg(h, {}, 0);
    HeadRecordHeld(h);
    assert m'.Keys == m1.Keys;
    HeadRecord(h, m', h.top + h.topsize - extra);
  }

  lemma TrimMoves(h: Heap, m1: Mem, m': Mem, extra: int)
    requires Good(h, {}) && Trimmed(h, m1, m', extra)
    ensures CanMoveEnd(h.m, h.cs, m', h.top, h.top + h.topsize, h.top + h.topsize - extra)
  {
    hide Good, RecordOk, SameOutside, TopWrites, Shrunk, ChunkSame;
    TrimWrites(h, m1, m', extra);
    Tail(h, {});
    HeldSeg(h, {}, 0);
    assert TailKept(h, m') by { TailFrame(h, m', {}); }
    TailChunks(h, m');
    hide TailKept;
    forall a | a in h.cs && a > h.top && a != h.top + h.topsize
      ensures End(h.segs[0]) <= a
    {
      TailOnly(h, {}, a);
      ReadTags(h, {}, a);
    }
  }

  lemma TrimDomain(h: Heap, m1: Mem, m': Mem, f': int)
    requires Domain(h.m, h.segs) && h.segs != [] && m'.Keys == m1.Keys
    requires h.segs[0].base < f' + TOP_FOOT_SIZE <= End(h.segs[0])
    requires Shrunk(h.m, m1, f' + TOP_FOOT_SIZE, End(h.segs[0])) && HEAP_START <= h.segs[0].base
    requires forall j :: 0 < j < |h.segs| ==> SegsApart(h.segs[0], h.segs[j])
    ensures Domain(m', EndMoved(h, m', f').segs)
  {
    var segs, segs' := h.segs, EndMoved(h, m', f').segs;
    forall w
      ensures w in m' <==> InStruct(w) || Covered(segs', w)
    {
      assert w in h.m <==> InStruct(w) || Covered(segs, w);
      if i :| 0 <= i < |segs| && InSeg(segs[i], w) {
        assert InSeg(segs'[i], w) || f' + TOP_FOOT_SIZE <= w < End(segs[0]);
      }
      if i :| 0 <= i < |segs'| && InSeg(segs'[i], w) {
        assert InSeg(segs[i], w);
        assert i > 0 ==> SegsApart(segs[0], segs[i]);
      }
    }
  }

  /** `sys_trim` gives back the end of the head segment. */
  lemma TrimCan(h: Heap, m1: Mem, m': Mem, extra: int)
    requires Good(h, {}) && Trimmed(h, m1, m', extra)
    ensures CanMove(h, m', h.top + h.topsize - extra)
  {
    hide Good, RecordOk, Covered, Domain, SameOutside, CanMoveEnd, TopWrites, Shrunk, Held;
    var f' := h.top + h.topsize - extra;
    TrimWrites(h, m1, m', extra);
    TrimMoves(h, m1, m', extra);
    Tail(h, {});
    HeldSeg(h, {}, 0);
    HeldStruct(h, {});
    forall j | 0 < j < |h.segs|
      ensures SegsApart(EndMoved(h, m', f').segs[0], h.segs[j]) && SegsApart(h.segs[0], h.segs[j])
    {
      SegsApartOf(h, {}, 0, j);
      HeldSeg(h, {}, j);
    }
    TrimDomain(h, m1, m', f');
  }

  // ---------- the list of records ----------

  /** The records, followed from the first one in the allocator's struct, are those of `segs`. */
  ghost predicate Linked(m: Mem, segs: seq<Seg>) {
    && segs != [] && segs[0].rec == SEG
    && (forall i :: 0 <= i < |segs| ==> RecordOk(m, segs, i) && segs[i].rec > 0)
    && (forall i :: 0 <= i < |segs| ==> 0 <= segs[i].base < End(segs[i]) < WORD_LIMIT)
  }

  /** The address of record `i`, or null at the end of the list. */
  function RecAt(segs: seq<Seg>, i: int): int { if 0 <= i < |segs| then segs[i].rec else 0 }

  /** The list of records starts in the struct, and a null pointer ends it. */
  lemma RecordPlaces(m: Mem, segs: seq<Seg>)
    requires Linked(m, segs)
    ensures RecAt(segs, 0) == SEG && RecAt(segs, |segs|) == 0
    ensures forall i :: 0 <= i < |segs| ==> RecAt(segs, i) == segs[i].rec != 0
  {
  }

  lemma GoodLinked(h: Heap, holes: set<int>)
    requires Good(h, holes) && h.top != 0
    ensures Linked(h.m, h.segs)
  {
    hide Good, TagsOk, IndexOk, PartsOk, SegsOk, DomainOk, EndsOk, RecordOk;
    GoodParts(h, holes);
    forall i | 0 <= i < |h.segs|
      ensures RecordOk(h.m, h.segs, i) && h.segs[i].rec > 0 && (i == 0 ==> h.segs[0].rec == SEG)
      ensures 0 <= h.segs[i].base < End(h.segs[i]) < WORD_LIMIT
    {
      SegsRecord(h.m, h.cs, h.segs, i);
      HeldSeg(h, holes, i);
    }
  }

  lemma LinkedGrown(m: Mem, m': Mem, segs: seq<Seg>, lo: int, hi: int)
    requires Linked(m, segs) && Grown(m, m', lo, hi)
    ensures Linked(m', segs)
  {
    forall i | 0 <= i < |segs|
      ensures RecordOk(m', segs, i)
    {
      assert RecordOk(m, segs, i);
    }
  }

  lemma ReadRecord(m: Mem, segs: seq<Seg>, i: int)
    requires Linked(m, segs) && 0 <= i < |segs|
    ensures var r := segs[i].rec;
      && r > 0 && r in m && m[r] == segs[i].base && r + SEG_SIZE in m && m[r + SEG_SIZE] == segs[i].size
      && r + SEG_NEXT in m && m[r + SEG_NEXT] == RecAt(segs, i + 1)
      && r + SEG_FLAGS in m && m[r + SEG_FLAGS] == 0
    ensures 0 <= segs[i].base < End(segs[i]) < WORD_LIMIT
  {
    assert RecordOk(m, segs, i);
  }

  /** Only the head segment holds top. */
  lemma HeadHoldsTop(h: Heap, holes: set<int>, i: int)
    requires Good(h, holes) && h.top != 0 && 0 <= i < |h.segs|
    ensures InSeg(h.segs[i], h.top) <==> i == 0
  {
    hide Good;
    Tail(h, holes);
    if i > 0 {
      SegsApartOf(h, holes, 0, i);
    }
  }

  // ---------- accounting ----------

  function Total(segs: seq<Seg>): int {
    if segs == [] then 0 else segs[0].size + Total(segs[1..])
  }

  lemma {:induction false} TotalSplit(a: seq<Seg>, b: seq<Seg>)
    ensures Total(a + b) == Total(a) + Total(b)
  {
    if a == [] {
      assert a + b == b;
    } else {
      assert (a + b)[1..] == a[1..] + b;
      TotalSplit(a[1..], b);
    }
  }

  lemma TotalUpdate(segs: seq<Seg>, i: int, s: Seg)
    requires 0 <= i < |segs|
    ensures Total(segs[i := s]) == Total(segs) - segs[i].size + s.size
  {
    assert segs == segs[..i] + ([segs[i]] + segs[i + 1..]);
    assert segs[i := s] == segs[..i] + ([s] + segs[i + 1..]);
    TotalSplit(segs[..i], [segs[i]] + segs[i + 1..]);
    TotalSplit(segs[..i], [s] + segs[i + 1..]);
    assert ([segs[i]] + segs[i + 1..])[1..] == ([s] + segs[i + 1..])[1..];
  }

  lemma TotalDrop(segs: seq<Seg>, i: int)
    requires 0 <= i < |segs|
    ensures Total(segs[..i] + segs[i + 1..]) == Total(segs) - segs[i].size
  {
    assert segs == segs[..i] + ([segs[i]] + segs[i + 1..]);
    TotalSplit(segs[..i], [segs[i]] + segs[i + 1..]);
    assert ([segs[i]] + segs[i + 1..])[1..] == segs[i + 1..];
    TotalSplit(segs[..i], segs[i + 1..]);
  }

  lemma TotalAdd(segs: seq<Seg>, s: Seg, t: Seg)
    requires segs != [] && t.size == segs[0].size
    ensures Total([s, t] + segs[1..]) == Total(segs) + s.size
  {
    assert ([s, t] + segs[1..])[1..] == [t] + segs[1..];
    assert ([t] + segs[1..])[1..] == segs[1..];
  }

  lemma NoTotal()
    ensures Total([]) == 0
  {
  }

  lemma EndOfList(m: Mem, segs: seq<Seg>, i: int)
    requires Linked(m, segs) && 0 <= i <= |segs| && RecAt(segs, i) == 0
    ensures i == |segs|
  {
    if i < |segs| {
      ReadRecord(m, segs, i);
    }
  }

  // ---------- regions of the system ----------

  /** The least that `sys_alloc` ever asks for: a minimum chunk, the reserve behind top, and room for alignment. */
  const LEAST_REGION: int := MIN_CHUNK_SIZE + TOP_FOOT_SIZE + MALLOC_ALIGNMENT

  /** A granularity from which on no segment is too small for the release pass; see `Releasing.SafeGranularity`. */
  const MIN_REGION: int := 512

  predicate RegionFits(base: int, tsize: int, size: int) {
    && HEAP_START <= base && base % 16 == 0 && tsize % 16 == 0 && size <= tsize && LEAST_REGION <= tsize
    && base + tsize < WORD_LIMIT
  }

  /** The sizes of all segments are multiples of `MIN_REGION`. */
  ghost predicate Paged(segs: seq<Seg>) {
    forall i :: 0 <= i < |segs| ==> segs[i].size % MIN_REGION == 0
  }

  /** From this size on, the chunk that fills a segment belongs in a tree bin. */
  const LARGE_SEGMENT: int := MIN_LARGE_SIZE + TOP_FOOT_SIZE

  ghost predicate AllLarge(segs: seq<Seg>) {
    forall i :: 0 <= i < |segs| ==> segs[i].size >= LARGE_SEGMENT
  }

  /** All segments but the head, which is never given back. */
  ghost predicate TailLarge(segs: seq<Seg>) {
    forall i :: 0 < i < |segs| ==> segs[i].size >= LARGE_SEGMENT
  }

  lemma AllIsTail(segs: seq<Seg>)
    ensures AllLarge(segs) ==> TailLarge(segs)
  {
  }

  /** A region of `tsize` bytes added to paged segments leaves them paged, and only a new head can be small. */
  ghost predicate SizesKept(segs: seq<Seg>, segs': seq<Seg>, tsize: int) {
    && (Paged(segs) && tsize % MIN_REGION == 0 ==> Paged(segs'))
    && (AllLarge(segs) ==> TailLarge(segs'))
  }

  ghost predicate Region(m: Mem, m': Mem, base: int, tsize: int, size: int) {
    RegionFits(base, tsize, size) && Grown(m, m', base, base + tsize)
  }

  lemma ChunkHasTop(h: Heap, holes: set<int>, a: int)
    requires Good(h, holes) && a in h.cs
    ensures h.top != 0 && h.segs != []
  {
    hide TagsOk, IndexOk, SegsOk, DomainOk, EndsOk;
  }

  lemma TopHasSegment(h: Heap)
    requires Good(h, {})
    ensures h.top == 0 <==> h.segs == []
  {
  }

  lemma PagedGrow(segs: seq<Seg>, i: int, s: Seg, more: int)
    requires 0 <= i < |segs| && s.size == segs[i].size + more
    ensures Paged(segs) && more % MIN_REGION == 0 ==> Paged(segs[i := s])
    ensures more >= 0 ==> SizesKept(segs, segs[i := s], more)
  {
    assert Paged(segs) && more % MIN_REGION == 0 ==> s.size % MIN_REGION == 0;
  }

  lemma PagedAdd(segs: seq<Seg>, s: Seg, t: Seg)
    requires segs != [] && t.size == segs[0].size
    ensures SizesKept(segs, [s, t] + segs[1..], s.size)
  {
  }

  lemma PagedDrop(segs: seq<Seg>, i: int)
    requires 0 <= i < |segs|
    ensures Paged(segs) ==> Paged(segs[..i] + segs[i + 1..])
    ensures TailLarge(segs) ==> TailLarge(segs[..i] + segs[i + 1..])
  {
  }

  /** The list without its element `i`, if that has been unlinked. */
  function Without(segs: seq<Seg>, i: int, unlinked: bool): seq<Seg> {
    if unlinked && 0 <= i < |segs| then segs[..i] + segs[i + 1..] else segs
  }

  /** The heap after a trim, as far as the accounting sees it. */
  lemma TrimmedHeap(h: Heap, m1: Mem, m': Mem, extra: int)
    requires Good(h, {}) && Trimmed(h, m1, m', extra) && extra % 16 == 0
    ensures var h' := EndMoved(h, m', h.top + h.topsize - extra);
      && Good(h', {}) && Untouched(h.m, m', LiveOf(h.cs)) && LiveOf(h'.cs) == LiveOf(h.cs) && h'.segs != []
      && Total(h'.segs) == Total(h.segs) - extra && (Paged(h.segs) && extra % MIN_REGION == 0 ==> Paged(h'.segs))
      && h'.segs[1..] == h.segs[1..] && h.segs != []
      && h'.segs == h.segs[0 := h.segs[0].(size := h.segs[0].size - extra)]
      && h' == h.(m := m', cs := h'.cs, segs := h'.segs, topsize := h.topsize - extra)
  {
    hide Good, Untouched, LiveOf, Total, Paged, MoveEnd, CanMove, Trimmed;
    assert h.top != 0 && h.segs != [] by { TrimmedTop(h, m1, m', extra); }
    var f' := h.top + h.topsize - extra;
    Tail(h, {});
    TrimCan(h, m1, m', extra);
    MoveEndGood(h, m', f');
    EndMovedFields(h, m', f');
    PagedGrow(h.segs, 0, h.segs[0].(size := f' + TOP_FOOT_SIZE - h.segs[0].base), -extra);
    TotalUpdate(h.segs, 0, h.segs[0].(size := f' + TOP_FOOT_SIZE - h.segs[0].base));
  }

  lemma TrimmedTop(h: Heap, m1: Mem, m': Mem, extra: int)
    requires Trimmed(h, m1, m', extra)
    ensures h.top != 0 && h.segs != []
  {
    hide Shrunk, TopWrites;
  }
}
