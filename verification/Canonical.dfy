/**
 The tiling is canonical: which chunks there are is determined by the segments and the blocks in use. So any two ways
 of freeing the same blocks end in the same partition, whatever was merged with what on the way.
 */
module Canonical {
  import opened Words
  import opened Memory
  import opened FreeIndex
  import opened Tiling
  import opened HeapState
  import opened HeapOps
  import opened Frames
  import opened Segments
  import opened Prepending

  // ---------- walking a segment ----------

  /** Chunks follow one another without a gap from `lo` to `hi`. */
  ghost predicate Tiled(cs: map<int, Chunk>, lo: int, hi: int)
    decreases hi - lo
  {
    lo == hi || (lo in cs && 0 < cs[lo].size <= hi - lo && Tiled(cs, lo + cs[lo].size, hi))
  }

  /** The last chunk of a segment: the reserve behind top, or the fenceposts behind a record. */
  function LastChunk(h: Heap, i: int): int {
    if i == 0 && h.segs != [] then End(h.segs[0]) - TOP_FOOT_SIZE
    else if 0 < i < |h.segs| then h.segs[i].rec - MEM_OFFSET + RECORD_SIZE
    else 0
  }

  ghost predicate EndsThere(h: Heap, i: int) {
    && 0 <= i < |h.segs|
    && var l := LastChunk(h, i);
    && l in h.cs && (if i == 0 then h.cs[l].kind.Foot? else h.cs[l].kind.Fence?) && l + h.cs[l].size == End(h.segs[i])
    && h.segs[i].base < l < End(h.segs[i])
    && (i > 0 ==>
          l - RECORD_SIZE in h.cs && h.cs[l - RECORD_SIZE].kind.Rec? && h.cs[l - RECORD_SIZE].size == RECORD_SIZE)
  }

  lemma LastOf(h: Heap, i: int)
    requires Good(h, {}) && 0 <= i < |h.segs|
    ensures EndsThere(h, i)
  {
    hide Good, TagsOk, IndexOk, PartsOk, SegsOk, DomainOk, EndsOk, RecordOk, KindOk;
    GoodParts(h, {});
    SegsRecord(h.m, h.cs, h.segs, i);
    var l := LastChunk(h, i);
    ReadTags(h, {}, l);
    if i == 0 {
      TailEnd(h);
    } else {
      PlaceRecord(h, {}, i);
    }
  }

  lemma TailEnd(h: Heap)
    requires Good(h, {}) && h.segs != []
    ensures var f := End(h.segs[0]) - TOP_FOOT_SIZE; f in h.cs && h.cs[f].size == TOP_FOOT_SIZE
  {
    hide Good;
    TopHasSegment(h);
    Tail(h, {});
  }

  /** The chunk behind a chunk of a segment is in the segment too, unless it was the last one. */
  lemma StaysInside(h: Heap, i: int, a: int)
    requires Good(h, {}) && 0 <= i < |h.segs| && a in h.cs && InSeg(h.segs[i], a)
    ensures if Ends(h.cs[a].kind) then a == LastChunk(h, i) && a + h.cs[a].size == End(h.segs[i])
            else a + h.cs[a].size in h.cs && InSeg(h.segs[i], a + h.cs[a].size) && h.cs[a].size > 0
  {
    hide Good;
    var l := LastChunk(h, i);
    LastOf(h, i);
    ReadTags(h, {}, a);
    GoodBeside(h, {}, a, l);
    if Ends(h.cs[a].kind) && a != l {
      EndHere(h, i, a);
    }
  }

  lemma EndHere(h: Heap, i: int, a: int)
    requires Good(h, {}) && 0 <= i < |h.segs| && a in h.cs && InSeg(h.segs[i], a) && Ends(h.cs[a].kind)
    ensures a == LastChunk(h, i)
  {
    hide Good, TagsOk, IndexOk, PartsOk, SegsOk, DomainOk, EndsSegment;
    GoodParts(h, {});
    LastOf(h, i);
    var l := LastChunk(h, i);
    ReadTags(h, {}, a);
    GoodBeside(h, {}, a, l);
    if a != l {
      EndsOnly(h, i, a + h.cs[a].size);
    }
  }

  lemma {:induction false} TiledFrom(h: Heap, i: int, a: int)
    requires Good(h, {}) && 0 <= i < |h.segs| && a in h.cs && InSeg(h.segs[i], a)
    ensures Tiled(h.cs, a, End(h.segs[i]))
    decreases End(h.segs[i]) - a
  {
    hide Good;
    StaysInside(h, i, a);
    ReadTags(h, {}, a);
    if !Ends(h.cs[a].kind) {
      TiledFrom(h, i, a + h.cs[a].size);
    }
  }

  /** Every segment is tiled by chunks, from its base up to and including its fenceposts or the reserve behind top. */
  lemma SegmentTiled(h: Heap, i: int)
    requires Good(h, {}) && 0 <= i < |h.segs|
    ensures Tiled(h.cs, h.segs[i].base, End(h.segs[i]))
  {
    hide Good;
    FirstNotEnd(h, i);
    HeldSeg(h, {}, i);
    TiledFrom(h, i, h.segs[i].base);
  }

  /** Every chunk lies in a segment. */
  lemma InSomeSegment(h: Heap, a: int)
    requires Good(h, {}) && a in h.cs
    ensures Covered(h.segs, a)
  {
    hide Good;
    ReadTags(h, {}, a);
    HeldStruct(h, {});
  }

  // ---------- two heaps with the same blocks ----------

  /** Chunks that the segments and the blocks in use determine. */
  predicate Anchor(k: Kind) { k.Live? || k.Rec? || Ends(k) }

  ghost predicate SameBlocks(h: Heap, h': Heap) {
    Good(h, {}) && Good(h', {}) && h'.segs == h.segs && LiveOf(h'.cs) == LiveOf(h.cs)
  }

  lemma AnchorShared(h: Heap, h': Heap, i: int, n: int)
    requires SameBlocks(h, h') && 0 <= i < |h.segs| && n in h.cs && InSeg(h.segs[i], n) && Anchor(h.cs[n].kind)
    ensures n in h'.cs && h'.cs[n].kind == h.cs[n].kind && h'.cs[n].size == h.cs[n].size
  {
    hide Good;
    if h.cs[n].kind.Live? {
      assert n in LiveOf(h.cs);
      assert n in LiveOf(h'.cs) && LiveOf(h'.cs)[n] == LiveOf(h.cs)[n];
    } else {
      hide LiveOf;
      StaysInside(h, i, n);
      LastOf(h, i);
      LastOf(h', i);
      if h.cs[n].kind.Rec? {
        ReadNext(h, {}, n);
        HeadOf(h, {}, n);
        StaysInside(h, i, n + h.cs[n].size);
      }
    }
  }

  /** A chunk that starts at the same place in both heaps is the same in both. */
  lemma SameChunkAt(h: Heap, h': Heap, i: int, a: int)
    requires SameBlocks(h, h') && 0 <= i < |h.segs| && a in h.cs && a in h'.cs && InSeg(h.segs[i], a)
    ensures h'.cs[a].kind == h.cs[a].kind && h'.cs[a].size == h.cs[a].size
  {
    hide Good, LiveOf;
    if Anchor(h.cs[a].kind) {
      AnchorShared(h, h', i, a);
    } else if Anchor(h'.cs[a].kind) {
      AnchorShared(h', h, i, a);
    } else {
      NotLonger(h, h', i, a);
      NotLonger(h', h, i, a);
      ReadNext(h, {}, a);
      ReadNext(h', {}, a);
      var n := a + h.cs[a].size;
      StaysInside(h, i, a);
      if h.cs[n].kind.Foot? {
        AnchorShared(h, h', i, n);
      }
      if h'.cs[n].kind.Foot? {
        AnchorShared(h', h, i, n);
      }
    }
  }

  /** A free chunk or top ends where something that both heaps have begins. */
  lemma NotLonger(h: Heap, h': Heap, i: int, a: int)
    requires SameBlocks(h, h') && 0 <= i < |h.segs| && a in h.cs && a in h'.cs && InSeg(h.segs[i], a)
    requires !Anchor(h.cs[a].kind)
    ensures h'.cs[a].size <= h.cs[a].size
  {
    hide Good, LiveOf;
    var n := a + h.cs[a].size;
    StaysInside(h, i, a);
    ReadNext(h, {}, a);
    AnchorShared(h, h', i, n);
    GoodBeside(h', {}, a, n);
  }

  lemma {:induction false} SameFrom(h: Heap, h': Heap, i: int, a: int, b: int)
    requires SameBlocks(h, h') && 0 <= i < |h.segs| && a in h.cs && a in h'.cs && InSeg(h.segs[i], a)
    requires h'.cs[a].first == h.cs[a].first && h'.cs[a].pin == h.cs[a].pin
    requires a <= b < End(h.segs[i])
    ensures b in h.cs <==> b in h'.cs
    ensures b in h.cs ==> h'.cs[b] == h.cs[b]
    decreases End(h.segs[i]) - a
  {
    hide Good, LiveOf;
    SameChunkAt(h, h', i, a);
    StaysInside(h, i, a);
    StaysInside(h', i, a);
    var n := a + h.cs[a].size;
    if b == a {
      return;
    }
    if b < n {
      if b in h.cs {
        GoodBeside(h, {}, a, b);
      }
      if b in h'.cs {
        GoodBeside(h', {}, a, b);
      }
    } else {
      ReadNext(h, {}, a);
      ReadNext(h', {}, a);
      SameFrom(h, h', i, n, b);
    }
  }

  /** The same segments and the same blocks in use: the same chunks, with the same flags. */
  lemma CanonicalTiling(h: Heap, h': Heap)
    requires SameBlocks(h, h')
    ensures h'.cs == h.cs && h'.top == h.top && h'.topsize == h.topsize
  {
    hide Good, LiveOf;
    forall b
      ensures b in h.cs <==> b in h'.cs
      ensures b in h.cs ==> h'.cs[b] == h.cs[b]
    {
      if b in h.cs {
        SameChunkOf(h, h', b);
      } else if b in h'.cs {
        SameChunkOf(h', h, b);
      }
    }
    assert h'.cs.Keys == h.cs.Keys;
    SameTop(h, h');
  }

  lemma SameChunkOf(h: Heap, h': Heap, b: int)
    requires SameBlocks(h, h') && b in h.cs
    ensures b in h'.cs && h'.cs[b] == h.cs[b]
  {
    hide Good, LiveOf;
    InSomeSegment(h, b);
    var i :| 0 <= i < |h.segs| && InSeg(h.segs[i], b);
    FirstNotEnd(h, i);
    FirstNotEnd(h', i);
    HeldSeg(h, {}, i);
    SameFrom(h, h', i, h.segs[i].base, b);
  }

  lemma SameTop(h: Heap, h': Heap)
    requires SameBlocks(h, h') && h'.cs == h.cs
    ensures h'.top == h.top && h'.topsize == h.topsize
  {
    hide TagsOk, IndexOk, SegsOk, DomainOk, EndsOk, LiveOf;
  }

  // ---------- the heap walk ----------

  /** What a walk finds at `q`. */
  ghost predicate Seen(h: Heap, i: int, q: int) {
    && 0 <= i < |h.segs| && q in h.cs && InSeg(h.segs[i], q) && q + HEAD in h.m
    && (h.m[q + HEAD] == FENCEPOST_HEAD <==> h.cs[q].kind.Fence?)
    && (q == h.top <==> h.cs[q].kind.Top?)
    && (h.cs[q].kind.Foot? ==> i == 0)
    && (!Ends(h.cs[q].kind) ==> Size(h.m[q + HEAD]) == h.cs[q].size && h.cs[q].size > 0)
    && (!h.cs[q].kind.Top? && !Ends(h.cs[q].kind) ==> (Inuse(h.m[q + HEAD]) <==> Used(h.cs[q].kind)))
    && Pinuse(h.m[q + HEAD]) == h.cs[q].pin
  }

  lemma HeadInRange(h: Heap, q: int)
    requires Good(h, {}) && q in h.cs && !Ends(h.cs[q].kind)
    ensures HEAP_START <= q && q + HEAD in h.m && 0 <= Size(h.m[q + HEAD]) < WORD_LIMIT
    ensures IndexOk(h.m, h.smallmap, h.treemap, h.ix)
  {
    hide Good, Size, Pinuse, Cinuse, InuseBits, IndexOk;
    ReadTags(h, {}, q);
    GoodIndex(h, {});
  }

  lemma SeeChunk(h: Heap, i: int, q: int)
    requires Good(h, {}) && 0 <= i < |h.segs| && q in h.cs && InSeg(h.segs[i], q)
    ensures Seen(h, i, q)
  {
    hide Good;
    ReadTags(h, {}, q);
    HeadOf(h, {}, q);
    WhereFree(h, {}, q);
    if h.cs[q].kind.Foot? {
      StaysInside(h, i, q);
      LastOf(h, i);
    }
    NoFenceHead(h.cs[q]);
  }

  lemma NoFenceHead(c: Chunk)
    requires KindOk(c.size, c.kind)
    ensures HeadWord(c) == FENCEPOST_HEAD <==> c.kind.Fence?
  {
  }

  /** Where the walk of segment `i` stops: at top, or at the fenceposts. */
  function WalkEnd(h: Heap, i: int): int { if i == 0 then h.top else LastChunk(h, i) }

  ghost predicate Stepped(h: Heap, i: int, q: int) {
    && 0 <= i < |h.segs| && q in h.cs && !Ends(h.cs[q].kind)
    && (h.cs[q].kind.Free? ==> q in h.ix.sizes || q == h.dv) && (Used(h.cs[q].kind) ==> q !in h.ix.sizes)
    && var n := q + h.cs[q].size;
    && n in h.cs && InSeg(h.segs[i], n) && n <= WalkEnd(h, i) && (h.cs[q].kind.Free? ==> Used(h.cs[n].kind))
  }

  /** One step of the walk: a free chunk is in a bin or the designated victim, and two free chunks never touch. */
  lemma WalkStep(h: Heap, i: int, q: int)
    requires Good(h, {}) && 0 <= i < |h.segs| && q in h.cs && InSeg(h.segs[i], q) && q != h.top && !h.cs[q].kind.Fence?
    requires q <= WalkEnd(h, i)
    ensures Stepped(h, i, q)
  {
    hide Good;
    StaysInside(h, i, q);
    WhereFree(h, {}, q);
    LastOf(h, i);
    ReadTags(h, {}, q);
    if i == 0 {
      TopHasSegment(h);
      Tail(h, {});
      GoodBeside(h, {}, q, h.top);
    } else {
      GoodBeside(h, {}, q, LastChunk(h, i));
    }
    if !Ends(h.cs[q].kind) {
      ReadNext(h, {}, q);
    }
  }

  lemma WalkStops(h: Heap, i: int, q: int)
    requires Good(h, {}) && 0 <= i < |h.segs| && q in h.cs && InSeg(h.segs[i], q) && q <= WalkEnd(h, i)
    requires q == h.top || h.cs[q].kind.Fence?
    ensures q == WalkEnd(h, i)
  {
    hide Good;
    TopHasSegment(h);
    HeadHoldsTop(h, {}, i);
    if q == h.top {
      assert InSeg(h.segs[i], h.top);
    } else {
      StaysInside(h, i, q);
      LastOf(h, i);
      if i == 0 {
        assert false;
      }
    }
  }

  /** Bytes of the first `n` segments that a walk does not count: the fenceposts. */
  ghost function FenceBytes(h: Heap, n: int): int
    decreases n
  {
    if n <= 1 then 0
    else FenceBytes(h, n - 1) + (if LastChunk(h, n - 1) in h.cs then h.cs[LastChunk(h, n - 1)].size else 0)
  }

  /** What a walk of segment `i` counts, with top and its reserve counted for the head segment. */
  lemma WalkCounts(h: Heap, i: int)
    requires Good(h, {}) && 0 <= i < |h.segs|
    ensures i == 0 ==> WalkEnd(h, 0) - h.segs[0].base + h.topsize + TOP_FOOT_SIZE == h.segs[0].size
    ensures i > 0 ==> WalkEnd(h, i) - h.segs[i].base + FenceBytes(h, i + 1) - FenceBytes(h, i) == h.segs[i].size
    ensures h.segs[i].base <= WalkEnd(h, i)
    ensures i > 0 ==> 32 <= FenceBytes(h, i + 1) - FenceBytes(h, i) <= 48
  {
    hide Good;
    TopHasSegment(h);
    Tail(h, {});
    LastOf(h, i);
    HeadOf(h, {}, LastChunk(h, i));
  }

  lemma TotalNext(segs: seq<Seg>, i: int)
    requires 0 <= i < |segs|
    ensures Total(segs[..i + 1]) == Total(segs[..i]) + segs[i].size
  {
    assert segs[..i + 1] == segs[..i] + [segs[i]];
    TotalSplit(segs[..i], [segs[i]]);
    assert [segs[i]][1..] == [];
  }
}
