/**
 Which memory serves a request: the algorithm that src/dlmalloc.c states in lines 4541-4558, in terms of the sizes of
 the binned chunks, whatever bins and nodes they are in.
 */
module Policy {
  import opened Words
  import opened Bits
  import opened Memory
  import opened SizeClasses
  import opened FreeIndex
  import opened IndexReads
  import opened Rings
  import opened Tries
  import opened BestFit
  import opened Lookup
  import opened HeapState

  /** A binned chunk would serve the request without remainder. */
  ghost predicate Remainderless(ix: Index, nb: int) { exists a :: a in ix.sizes && ix.sizes[a] == nb }

  ghost predicate Fitting(ix: Index, nb: int) { exists a :: a in ix.sizes && ix.sizes[a] >= nb }

  /** A binned chunk that fits is smaller than the designated victim. */
  ghost predicate BeatsVictim(ix: Index, nb: int, dvsize: int) {
    exists a :: a in ix.sizes && nb <= ix.sizes[a] < dvsize
  }

  /** The smallest binned chunk that fits. */
  ghost predicate Smallest(ix: Index, nb: int, p: int) {
    && p in ix.sizes && ix.sizes[p] >= nb
    && forall a :: a in ix.sizes && ix.sizes[a] >= nb ==> ix.sizes[p] <= ix.sizes[a]
  }

  /** Of the small chunks of one size, the one that was put in the bin last. */
  ghost predicate Newest(ix: Index, p: int) {
    p in ix.sizes && IsSmall(ix.sizes[p]) ==>
      && |ix.small| == 32 && 0 <= SmallIndex(ix.sizes[p]) < 32
      && var r := ix.small[SmallIndex(ix.sizes[p])];
         r != [] && p == r[|r| - 1]
  }

  /** The request is served from the bins: steps 1 and 3 for a small request, step 1 for a large one. */
  ghost predicate FromBins(h: Heap, nb: int) {
    if IsSmall(nb) then Remainderless(h.ix, nb) || (h.dvsize < nb && Fitting(h.ix, nb))
    else Fitting(h.ix, nb) && (h.dvsize < nb || BeatsVictim(h.ix, nb, h.dvsize))
  }

  /** The request can be served without asking the system. */
  ghost predicate InHand(h: Heap, nb: int) { FromBins(h, nb) || nb <= h.dvsize || nb < h.topsize }

  /** Where the block is cut from. */
  ghost predicate Served(h: Heap, nb: int, p: int) {
    if FromBins(h, nb) then Smallest(h.ix, nb, p) && Newest(h.ix, p)
    else if nb <= h.dvsize then p == h.dv
    else nb < h.topsize ==> p == h.top
  }

  /** What a small request leaves of a chunk from a bin is the designated victim, unless it is too small for a chunk. */
  ghost predicate RemainderKept(h: Heap, h': Heap, nb: int, p: int) {
    && p in h.ix.sizes
    && if h.ix.sizes[p] - nb >= MIN_CHUNK_SIZE then h'.dv == p + nb && h'.dvsize == h.ix.sizes[p] - nb
       else h'.dv == h.dv && h'.dvsize == h.dvsize
  }

  /**
   The victim after the request has been served: what is left of it or of a chunk from a bin, if that is a chunk, and
   otherwise the one it was.
   */
  ghost predicate VictimServed(h: Heap, h': Heap, nb: int, p: int) {
    if FromBins(h, nb) then
      if IsSmall(nb) then RemainderKept(h, h', nb, p) else h'.dv == h.dv && h'.dvsize == h.dvsize
    else if nb <= h.dvsize then
      if h.dvsize - nb >= MIN_CHUNK_SIZE then h'.dv == h.dv + nb && h'.dvsize == h.dvsize - nb
      else h'.dv == 0 && h'.dvsize == 0
    else nb < h.topsize ==> h'.dv == h.dv && h'.dvsize == h.dvsize
  }

  /** The block at `p` is large enough for `nb` bytes, or is so together with free memory right behind it. */
  ghost predicate RoomInPlace(h: Heap, p: int, nb: int) {
    && p in h.cs
    && var size, next := h.cs[p].size, p + h.cs[p].size;
       || nb <= size
       || (next == h.top && nb < size + h.topsize)
       || (next == h.dv && nb <= size + h.dvsize)
       || (next in h.ix.sizes && nb <= size + h.ix.sizes[next])
  }

  /**
   The designated victim after the block `p` has been resized in place. If it lies right behind the block, what the
   block gives back or leaves of it is the victim, unless it is too small for a chunk.
   */
  function VictimResized(h: Heap, p: int, nb: int): int {
    if p !in h.cs || p + h.cs[p].size != h.dv then h.dv
    else if nb <= h.cs[p].size then if h.cs[p].size - nb >= MIN_CHUNK_SIZE then p + nb else h.dv
    else if h.cs[p].size + h.dvsize - nb >= MIN_CHUNK_SIZE then p + nb else 0
  }

  /** A small bin is marked exactly if there is a chunk of its size. */
  lemma MarkedSmall(m: Mem, smallmap: bv32, treemap: bv32, ix: Index, i: int)
    requires IndexOk(m, smallmap, treemap, ix) && 0 <= i < 32
    ensures Bit(smallmap, i) <==> Remainderless(ix, 8 * i)
  {
    hide SizesOk, TrieOk, Bit, Ring, Distinct;
    assert SmallBinOk(m, smallmap, ix, i);
    if Bit(smallmap, i) {
      var a := ix.small[i][1];
      assert a in ix.sizes && ix.sizes[a] == 8 * i;
    }
    if a :| a in ix.sizes && ix.sizes[a] == 8 * i {
      OneIsHigh(m, ix.sizes, a);
      InSmallBin(m, smallmap, treemap, ix, 8 * i, a);
    }
  }

  /** With words of 8 bytes, every second small bin stays empty. */
  lemma OddBinsEmpty(m: Mem, smallmap: bv32, treemap: bv32, ix: Index, i: int)
    requires IndexOk(m, smallmap, treemap, ix) && 0 <= i < 32 && i % 2 == 1
    ensures !Bit(smallmap, i)
  {
    hide SmallOk, TrieOk, Bit;
    MarkedSmall(m, smallmap, treemap, ix, i);
    forall a | a in ix.sizes
      ensures ix.sizes[a] != 8 * i
    {
      assert FreeWords(m, a, ix.sizes[a]);
    }
  }

  /** The first test of `malloc` finds exactly the chunks without remainder. */
  lemma NearIsRemainderless(m: Mem, smallmap: bv32, treemap: bv32, ix: Index, nb: int)
    requires IndexOk(m, smallmap, treemap, ix) && MIN_CHUNK_SIZE <= nb <= 240 && nb % 16 == 0
    ensures var idx := SmallIndex(nb);
      && 0 <= idx < 31 && nb == 8 * idx
      && (ShiftRight(smallmap, idx) & 3 != 0 <==> Remainderless(ix, nb))
      && (Remainderless(ix, nb) ==> NearBin(smallmap, idx) == idx)
  {
    hide IndexOk, Bit, ShiftRight, NearBin;
    var idx := SmallIndex(nb);
    assert idx % 2 == 0;
    NearBinIsMarked(smallmap, idx);
    MarkedSmall(m, smallmap, treemap, ix, idx);
    OddBinsEmpty(m, smallmap, treemap, ix, idx + 1);
  }

  /** Small chunks that fit are in no unmarked bin. */
  lemma SmallAreMarked(m: Mem, smallmap: bv32, treemap: bv32, ix: Index, a: int)
    requires IndexOk(m, smallmap, treemap, ix) && a in ix.sizes && IsSmall(ix.sizes[a])
    ensures 0 <= SmallIndex(ix.sizes[a]) < 32 && ix.sizes[a] == 8 * SmallIndex(ix.sizes[a])
    ensures Bit(smallmap, SmallIndex(ix.sizes[a]))
  {
    hide SmallOk, TrieOk, Bit;
    assert FreeWords(m, a, ix.sizes[a]);
    SmallIndexExact(ix.sizes[a]);
    MarkedSmall(m, smallmap, treemap, ix, SmallIndex(ix.sizes[a]));
  }

  /** The least marked bin above the request's own holds the smallest chunks that fit. */
  lemma NextIsSmallest(m: Mem, smallmap: bv32, treemap: bv32, ix: Index, nb: int, p: int)
    requires IndexOk(m, smallmap, treemap, ix) && MIN_CHUNK_SIZE <= nb <= 240 && nb % 16 == 0
    requires !Remainderless(ix, nb) && ShiftRight(smallmap, SmallIndex(nb)) != 0
    requires p in ix.sizes && ix.sizes[p] == 8 * NextBin(smallmap, SmallIndex(nb))
    ensures Smallest(ix, nb, p)
  {
    hide IndexOk, Bit, ShiftRight, NextBin;
    var idx := SmallIndex(nb);
    MarkedSmall(m, smallmap, treemap, ix, idx);
    NextBinIsLeast(smallmap, idx);
    forall a | a in ix.sizes && ix.sizes[a] >= nb
      ensures ix.sizes[p] <= ix.sizes[a]
    {
      if IsSmall(ix.sizes[a]) {
        SmallAreMarked(m, smallmap, treemap, ix, a);
      }
    }
  }

  /** When no small bin from the request's own on is marked, only tree chunks fit. */
  lemma OnlyLargeFit(m: Mem, smallmap: bv32, treemap: bv32, ix: Index, nb: int, a: int)
    requires IndexOk(m, smallmap, treemap, ix) && MIN_CHUNK_SIZE <= nb <= 240
    requires ShiftRight(smallmap, SmallIndex(nb)) == 0 && a in ix.sizes && ix.sizes[a] >= nb
    ensures a in ix.loc
  {
    hide IndexOk, Bit, ShiftRight;
    if IsSmall(ix.sizes[a]) {
      SmallAreMarked(m, smallmap, treemap, ix, a);
      var idx, i := SmallIndex(nb), SmallIndex(ix.sizes[a]);
      ShiftRightBit(smallmap, idx, i - idx);
      ZeroBits();
      assert false;
    } else {
      LargeIsLocated(m, smallmap, treemap, ix, a);
    }
  }

  lemma NoTreeChunks(m: Mem, smallmap: bv32, treemap: bv32, ix: Index, a: int)
    requires IndexOk(m, smallmap, treemap, ix) && a in ix.loc
    ensures treemap != 0
  {
    hide IndexOk, Bit, Shape;
    ShapeOf(m, smallmap, treemap, ix);
    ChunkFacts(ix, a);
    RootCoversBin(ix, Bin(ix.loc[a]), a);
    ReadTreeBin(m, smallmap, treemap, ix, Bin(ix.loc[a]));
    ZeroBits();
  }

  /** The best fit of the tree bins is the smallest chunk that fits when no small chunk does. */
  lemma TreeIsSmallest(m: Mem, smallmap: bv32, treemap: bv32, ix: Index, nb: int, p: int)
    requires IndexOk(m, smallmap, treemap, ix) && MIN_CHUNK_SIZE <= nb && BestFitting(ix, nb, p) && p != 0
    requires nb <= 240 ==> ShiftRight(smallmap, SmallIndex(nb)) == 0
    requires nb > 240 ==> nb >= MIN_LARGE_SIZE
    ensures Smallest(ix, nb, p) && Newest(ix, p)
  {
    hide IndexOk, ShiftRight;
    LocatedIsLarge(m, smallmap, treemap, ix, p);
    forall a | a in ix.sizes && ix.sizes[a] >= nb
      ensures a in ix.loc
    {
      if nb <= 240 {
        OnlyLargeFit(m, smallmap, treemap, ix, nb, a);
      } else {
        LargeIsLocated(m, smallmap, treemap, ix, a);
      }
    }
  }

  /** Without marked bins nothing fits. */
  lemma NothingBinnedFits(m: Mem, smallmap: bv32, treemap: bv32, ix: Index, nb: int)
    requires IndexOk(m, smallmap, treemap, ix) && MIN_CHUNK_SIZE <= nb && treemap == 0
    requires nb <= 240 ==> ShiftRight(smallmap, SmallIndex(nb)) == 0
    requires nb > 240 ==> nb >= MIN_LARGE_SIZE
    ensures !Fitting(ix, nb)
  {
    hide IndexOk, ShiftRight;
    forall a | a in ix.sizes
      ensures ix.sizes[a] < nb
    {
      if ix.sizes[a] >= nb {
        if nb <= 240 {
          OnlyLargeFit(m, smallmap, treemap, ix, nb, a);
        } else {
          LargeIsLocated(m, smallmap, treemap, ix, a);
        }
        NoTreeChunks(m, smallmap, treemap, ix, a);
        assert false;
      }
    }
  }

  /** What `tmalloc_large` has found out when it leaves a large request to the victim. */
  lemma VictimIsTighter(m: Mem, smallmap: bv32, treemap: bv32, ix: Index, nb: int, dvsize: int)
    requires IndexOk(m, smallmap, treemap, ix) && MIN_LARGE_SIZE <= nb
    requires BestFitting(ix, nb, 0) || DvFitsBest(ix, nb, dvsize)
    ensures !Fitting(ix, nb) || (nb <= dvsize && !BeatsVictim(ix, nb, dvsize))
  {
    hide IndexOk;
    forall a | a in ix.sizes && ix.sizes[a] >= nb
      ensures a in ix.loc
    {
      LargeIsLocated(m, smallmap, treemap, ix, a);
    }
  }
}
