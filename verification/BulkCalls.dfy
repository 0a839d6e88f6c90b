/** Allocating and freeing many blocks at once, which only src/dlmalloc.c offers. */
module BulkCalls {
  import opened Words
  import opened Memory
  import opened Search
  import opened Tiling
  import opened HeapState
  import opened HeapOps
  import opened Freeing
  import opened Segments
  import opened Releasing
  import opened Resizing
  import opened BulkFreeing
  import opened Independent
  import opened Limits
  import opened Policy
  import opened Footprint
  import opened Traffic
  import opened Accounts
  import opened Allocator

  /** The loop of `internal_bulk_free`, src/dlmalloc.c:5095-5126. */
  method FreeEntries(d: Dlmalloc, a: array<int>)
    requires Good(d.State(), {}) && AllLive(a[..], 0, LiveOf(d.cs))
    modifies d`mem, d`smallmap, d`treemap, d`ix, d`cs, d`dv, d`dvsize, d`top, d`topsize, a
    ensures Good(d.State(), {}) && LiveOf(d.cs) == old(LiveOf(d.cs)) - Pending(old(a[..]), 0)
    ensures Untouched(old(d.mem), d.mem, LiveOf(d.cs)) && forall j :: 0 <= j < a.Length ==> a[j] == 0
  {
    hide Good, LiveOf, Untouched, Halfway, AllLive, Pending, Freed, PairMerged, Size;
    ghost var h0, s0 := d.State(), a[..];
    StartBulk(h0, s0);
    var i := 0;
    while i < a.Length
      invariant 0 <= i <= a.Length && Halfway(h0, d.State(), s0, a[..], i)
    {
      var ptr := a[i];
      if ptr != 0 {
        FreeEntry(d, a, i, h0, s0);
      } else {
        SkipEntry(h0, d.State(), s0, a[..], i);
      }
      i := i + 1;
    }
    BulkDone(h0, d.State(), s0, a[..]);
  }

  /** The body of the loop for an entry that is not null. */
  method FreeEntry(d: Dlmalloc, a: array<int>, i: int, ghost h0: Heap, ghost s0: seq<int>)
    requires 0 <= i < a.Length && a[i] != 0 && Halfway(h0, d.State(), s0, a[..], i)
    modifies d`mem, d`smallmap, d`treemap, d`ix, d`cs, d`dv, d`dvsize, d`top, d`topsize, a
    ensures Halfway(h0, d.State(), s0, a[..], i + 1)
  {
    hide Good, LiveOf, Untouched, Halfway, AllLive, Pending, Freed, PairMerged, Size, Retile;
    ghost var h1, s := d.State(), a[..];
    var p := a[i] - MEM_OFFSET;
    EntryIs(h0, h1, s0, s, i);
    ReadTags(h1, {}, p);
    var psize := Size(d.mem[p + HEAD]);
    a[i] := 0;
    var next := p + psize;
    if i + 1 < a.Length && a[i + 1] == next + MEM_OFFSET {
      LivePlace(h1, p);
      EntryIs(h0, h1, s0, s, i + 1);
      ReadTags(h1, {}, next);
      var newsize := Size(d.mem[next + HEAD]) + psize;
      MergeBlocks(h1, p, next);
      ghost var h2 := OneBlock(h1, p, next + d.cs[next].size, newsize - CHUNK_OVERHEAD);
      d.mem := SetInuse(d.mem, p, newsize);
      d.cs := h2.cs;
      a[i + 1] := p + MEM_OFFSET;
      MergedEntry(h0, h1, d.State(), s0, s, i, p, next);
      assert a[..] == s[i := 0][i + 1 := p + MEM_OFFSET];
    } else {
      d.DisposeChunk(p, psize);
      FreedEntry(h0, h1, d.State(), s0, s, i);
      assert a[..] == s[i := 0];
    }
  }

  /** The end of `internal_bulk_free`, src/dlmalloc.c:5127-5129: top may have become too large. */
  method TrimIfLarge(d: Dlmalloc)
    requires d.Valid() && (d.releases ==> TailLarge(d.segs) || d.footprint <= d.trimCheck)
    modifies d`mem, d`treemap, d`ix, d`cs, d`segs, d`dv, d`dvsize, d`top, d`topsize, d`trimCheck, d`footprint,
      d`releaseChecks, d`traffic
    ensures d.Valid() && LiveOf(d.cs) == old(LiveOf(d.cs)) && Untouched(old(d.mem), d.mem, LiveOf(d.cs))
    ensures MaybeTrimmed(LiveOf(d.cs), old(d.Ledger()), old(d.topsize), d.Ledger(), d.granularity,
                         d.maxReleaseCheckRate, Since(old(d.traffic), d.traffic))
  {
    hide Good, LiveOf, Untouched, LegalGranularity, Total, Paged, TailLarge, Outstanding, Peak, TrimRan, Since;
    SinceNothing(d.traffic);
    TopHasSegment(d.State());
    UntouchedSelf(d.State(), {});
    if d.top != 0 {
      TopInFootprint(d.State());
    } else {
      NoTop(d.State());
    }
    if d.ShouldTrim(d.topsize) {
      if d.releases {
        TailIsSafe(d.State());
      }
      MaxRequestPositive(d.granularity);
      assert d.Ledger() == d.Ledger().(topsize := d.topsize);
      var trimmed := d.SysTrim(0);
    }
  }

  lemma NoTop(h: Heap)
    requires Good(h, {})
    ensures h.top == 0 ==> h.topsize == 0
  {
  }

  /** `internal_bulk_free`, src/dlmalloc.c:5092-5132 */
  method BulkFree(d: Dlmalloc, a: array<int>)
    requires d.Valid() && AllLive(a[..], 0, LiveOf(d.cs))
    requires d.releases ==> TailLarge(d.segs) || d.footprint <= d.trimCheck
    modifies d`mem, d`smallmap, d`treemap, d`ix, d`cs, d`segs, d`dv, d`dvsize, d`top, d`topsize, d`trimCheck,
      d`footprint, d`releaseChecks, d`traffic, a
    ensures d.Valid() && LiveOf(d.cs) == old(LiveOf(d.cs)) - Pending(old(a[..]), 0)
    ensures Untouched(old(d.mem), d.mem, LiveOf(d.cs)) && forall j :: 0 <= j < a.Length ==> a[j] == 0
    ensures exists t ::
      MaybeTrimmed(LiveOf(d.cs), old(d.Ledger()), t, d.Ledger(), d.granularity, d.maxReleaseCheckRate,
                   Since(old(d.traffic), d.traffic))
  {
    hide Good, LiveOf, Untouched, AllLive, Pending, LegalGranularity, Total, Paged, TailLarge, Outstanding, Peak,
         MaybeTrimmed, Since;
    ghost var m0, b0 := d.mem, d.Ledger();
    FreeEntries(d, a);
    ghost var m1, t := d.mem, d.topsize;
    TrimIfLarge(d);
    UntouchedTrans(m0, m1, d.mem, LiveOf(d.cs));
    TrimmedFrom(LiveOf(d.cs), b0, t, d.Ledger(), d.granularity, d.maxReleaseCheckRate,
                Since(old(d.traffic), d.traffic));
  }

  /** An entry of the array of pointers, which is the caller's or lies in the heap. */
  ghost predicate Entry(d: Dlmalloc, chunks: array?<int>, marray: int, j: int, v: int)
    reads d`mem, if chunks == null then {} else {chunks}
  {
    if chunks != null then 0 <= j < chunks.Length && chunks[j] == v
    else marray + 8 * j in d.mem && d.mem[marray + 8 * j] == v
  }

  /** `marray[i] = chunk2mem(p)` */
  method PutEntry(d: Dlmalloc, chunks: array?<int>, marray: int, i: int, v: int, ghost n: int, ghost m0: Mem,
                  ghost live0: map<int, Block>, ghost before: map<int, Block>, ghost p: int, ghost hi: int,
                  ghost sizes: seq<int>, ghost same: bool, ghost q: int)
    requires Cutting(d.State(), m0, live0, before, p, hi, sizes, same, i, q) && 0 <= i < n && q < hi
    requires ArrayReady(chunks != null, if chunks != null then chunks.Length else 0, marray, n, live0, before, hi)
    modifies d`mem, chunks
    ensures Cutting(d.State(), m0, live0, before, p, hi, sizes, same, i, q) && Entry(d, chunks, marray, i, v)
    ensures chunks != null ==> d.mem == old(d.mem) && chunks[..] == old(chunks[..])[i := v]
    ensures chunks == null ==> d.mem == old(d.mem)[marray + 8 * i := v]
    ensures ClearUpTo(old(d.mem), p, hi, sizes, same, i) ==> ClearUpTo(d.mem, p, hi, sizes, same, i)
  {
    hide Cutting, ClearUpTo;
    if chunks != null {
      chunks[i] := v;
    } else {
      var w := marray + 8 * i;
      EntryStep(d.State(), m0, live0, before, p, hi, sizes, same, i, q, w, v);
      d.mem := d.mem[w := v];
    }
  }

  /** The loop of `ialloc`, src/dlmalloc.c:5048-5063. */
  method CutElements(d: Dlmalloc, first: int, n: int, sizes: seq<int>, same: bool, elementSize: int, length: int,
                     chunks: array?<int>, marray: int, ghost m0: Mem, ghost live0: map<int, Block>,
                     ghost before: map<int, Block>)
    requires Cutting(d.State(), m0, live0, before, first, first + length, sizes, same, 0, first) && n >= 1
    requires ArrayReady(chunks != null, if chunks != null then chunks.Length else 0, marray, n, live0, before,
                        first + length)
    requires Offset(sizes, same, n) <= length < Offset(sizes, same, n) + MIN_CHUNK_SIZE
    requires NonNegative(sizes) && if same then |sizes| >= 1 else |sizes| >= n
    requires elementSize == if same then ElementSize(sizes, same, 0) else 0
    modifies d`mem, d`cs, chunks
    ensures AllCut(m0, live0, d.State(), before, first, first + length, sizes, same, n)
    ensures forall j :: 0 <= j < n ==> Entry(d, chunks, marray, j, first + Offset(sizes, same, j) + MEM_OFFSET)
    ensures ClearUpTo(old(d.mem), first, first + length, sizes, same, 0) ==>
      AllClear(d.mem, first, first + length, sizes, same, n)
  {
    hide Cutting, Offset, ClearUpTo, AllClear, ElementSize, AllCut, Request2Size, AfterCut, AfterLast, Head, SizeFor,
         NonNegative;
    ghost var hi := first + length;
    ghost var clear := ClearUpTo(d.mem, first, hi, sizes, same, 0);
    var p := first;
    var remainderSize := length;
    var i := 0;
    while true
      invariant 0 <= i < n && remainderSize == hi - p
      invariant Cutting(d.State(), m0, live0, before, first, hi, sizes, same, i, p)
      invariant forall j :: 0 <= j < i ==> Entry(d, chunks, marray, j, first + Offset(sizes, same, j) + MEM_OFFSET)
      invariant clear ==> ClearUpTo(d.mem, first, hi, sizes, same, i)
      decreases n - i
    {
      OffsetGrows(sizes, same, i, n);
      CuttingPlace(d.State(), m0, live0, before, first, hi, sizes, same, i, p);
      PutEntry(d, chunks, marray, i, p + MEM_OFFSET, n, m0, live0, before, first, hi, sizes, same, p);
      ghost var h := d.State();
      if i != n - 1 {
        SizeIs(sizes, same, i);
        var size := if elementSize != 0 then elementSize else Request2Size(sizes[i]);
        OffsetGrows(sizes, same, i + 1, n);
        CutStep(h, m0, live0, before, first, hi, sizes, same, i, p);
        remainderSize := remainderSize - size;
        d.mem := SetSizeAndPinuseOfInuseChunk(d.mem, p, size);
        d.cs := AfterCut(h, p, p + size, hi, SizeFor(sizes, same, i)).cs;
        p := p + size;
      } else {
        LastStep(h, m0, live0, before, first, hi, sizes, same, n, p);
        d.mem := SetSizeAndPinuseOfInuseChunk(d.mem, p, remainderSize);
        d.cs := AfterLast(h, p, hi, SizeFor(sizes, same, n - 1)).cs;
        break;
      }
      i := i + 1;
    }
  }

  /** Adds up the padded sizes of the elements, src/dlmalloc.c:5000-5010. */
  method ContentsSize(n: int, sizes: seq<int>, same: bool) returns (elementSize: int, contents: int)
    requires n >= 1 && NonNegative(sizes) && if same then |sizes| >= 1 else |sizes| >= n
    ensures contents == Offset(sizes, same, n) && elementSize == if same then ElementSize(sizes, same, 0) else 0
  {
    hide Request2Size;
    if same {
      elementSize := Request2Size(sizes[0]);
      contents := n * elementSize;
      SameOffset(sizes, n);
    } else {
      elementSize := 0;
      contents := 0;
      var i := 0;
      while i != n
        invariant 0 <= i <= n && contents == Offset(sizes, same, i)
      {
        contents := contents + Request2Size(sizes[i]);
        i := i + 1;
      }
    }
  }

  /** What `ialloc` asks `malloc` for: the padded elements and the array in one block. */
  function AskedTotal(sizes: seq<int>, same: bool, n: int, given: bool): int
    requires n >= 0 && if same then |sizes| >= 1 else |sizes| >= n
  {
    if n == 0 then 0 else Offset(sizes, same, n) + ArraySize(given, n) - CHUNK_OVERHEAD
  }

  /**
   `ialloc`, src/dlmalloc.c:4966-5083, for sizes whose sum is a machine word: allocates `n` blocks at once. The array
   of pointers is the caller's, or else a block of its own behind the elements.
   */
  method Ialloc(d: Dlmalloc, n: int, sizes: seq<int>, same: bool, zero: bool, chunks: array?<int>)
    returns (ok: bool, marray: int, ghost p: int, ghost hi: int)
    requires d.Valid() && 0 <= n && NonNegative(sizes) && if same then |sizes| >= 1 else |sizes| >= n
    requires Offset(sizes, same, n) + ArraySize(chunks != null, n) < WORD_LIMIT
    requires chunks != null ==> n <= chunks.Length
    modifies d`mem, d`smallmap, d`treemap, d`ix, d`cs, d`segs, d`dv, d`dvsize, d`top, d`topsize, d`trimCheck,
      d`footprint, d`maxFootprint, d`releaseChecks, d`denials, d`traffic, chunks
    ensures d.Valid()
    ensures !ok ==> d.State() == old(d.State()) && (chunks != null ==> chunks[..] == old(chunks[..]))
    ensures !ok ==>
      || d.denials == old(d.denials) + 1
      || (n > 0 && Offset(sizes, same, n) + ArraySize(chunks != null, n) - CHUNK_OVERHEAD >= MaxRequest(d.granularity))
    ensures n == 0 && chunks != null ==> ok && d.State() == old(d.State())
    ensures n == 0 && chunks == null && ok ==>
      Allocated(old(d.State()), d.State(), marray - MEM_OFFSET, 0, MIN_CHUNK_SIZE)
    ensures n > 0 && ok ==> Independents(old(d.State()), d.State(), p, hi, sizes, same, n, chunks != null)
    ensures n > 0 && ok && chunks == null ==> marray == hi + MEM_OFFSET
    ensures n > 0 && ok ==> forall j :: 0 <= j < n ==>
      Entry(d, chunks, marray, j, p + Offset(sizes, same, j) + MEM_OFFSET)
    ensures n > 0 && ok && zero ==> AllClear(d.mem, p, hi, sizes, same, n)
    ensures if n == 0 && chunks != null then d.traffic == old(d.traffic)
      else SystemUsed(old(d.State()), old(d.traffic), d.traffic, d.granularity,
                      AskedTotal(sizes, same, n, chunks != null), if ok then 1 else 0)
  {
    hide Good, Allocated, Offset, AllCut, AllClear, Independents, Request2Size, LegalGranularity, Total, Paged,
         LiveOf, Cutting, ClearUpTo, MaxRequest, Served, InHand, VictimServed, SystemUsed, Requested, Outstanding, Peak;
    ghost var h0 := d.State();
    GranularityFacts(d.granularity);
    marray, p, hi := 0, 0, 0;
    if n == 0 {
      ok := true;
      if chunks == null {
        assert Request2Size(0) == MIN_CHUNK_SIZE by { SmallestSize(0); }
        assert 0 < MaxRequest(d.granularity) by { SmallRequests(0, d.granularity); }
        marray := d.Malloc(0);
        ok := marray != 0;
        UsedAlike(h0, old(d.traffic), d.traffic, d.granularity, 0, marray, if ok then 1 else 0);
      }
      return;
    }
    var arraySize := if chunks != null then 0 else Request2Size(8 * n);
    var elementSize, contents := ContentsSize(n, sizes, same);
    TotalSize(sizes, same, n, chunks != null);
    var r := d.Malloc(contents + arraySize - CHUNK_OVERHEAD);
    ok := r != 0;
    UsedAlike(h0, old(d.traffic), d.traffic, d.granularity, contents + arraySize - CHUNK_OVERHEAD, r,
              if ok then 1 else 0);
    if ok {
      p := r - MEM_OFFSET;
      marray, hi := Partition(d, r, n, sizes, same, zero, elementSize, contents, arraySize, chunks, h0);
    }
  }

  /** The second half of `ialloc`: cuts up the block `r`. */
  method Partition(d: Dlmalloc, r: int, n: int, sizes: seq<int>, same: bool, zero: bool, elementSize: int,
                   contents: int,
                   arraySize: int, chunks: array?<int>, ghost h0: Heap)
    returns (marray: int, ghost hi: int)
    requires Good(d.State(), {}) && n >= 1 && NonNegative(sizes) && if same then |sizes| >= 1 else |sizes| >= n
    requires chunks != null ==> n <= chunks.Length
    requires contents == Offset(sizes, same, n) && arraySize == ArraySize(chunks != null, n)
    requires elementSize == if same then ElementSize(sizes, same, 0) else 0
    requires Allocated(h0, d.State(), r - MEM_OFFSET, contents + arraySize - CHUNK_OVERHEAD, contents + arraySize)
    modifies d`mem, d`cs, chunks
    ensures Good(d.State(), {}) && Independents(h0, d.State(), r - MEM_OFFSET, hi, sizes, same, n, chunks != null)
    ensures chunks == null ==> marray == hi + MEM_OFFSET
    ensures forall j :: 0 <= j < n ==> Entry(d, chunks, marray, j, r - MEM_OFFSET + Offset(sizes, same, j) + MEM_OFFSET)
    ensures zero ==> AllClear(d.mem, r - MEM_OFFSET, hi, sizes, same, n)
  {
    hide Good, Allocated, Offset, AllCut, AllClear, Independents, Request2Size, LiveOf, Cutting, ClearUpTo,
         ElementSize, ElementStarts, CutAt, TwoBlocks, Size;
    ghost var before: map<int, Block>;
    var p, length: int;
    p, length, marray, before := PrepareCut(d, r, n, sizes, same, zero, contents, arraySize, chunks != null, h0);
    hi := p + length;
    CutElements(d, p, n, sizes, same, elementSize, length, chunks, marray, h0.m, LiveOf(h0.cs), before);
    AllCutGood(h0.m, LiveOf(h0.cs), d.State(), before, p, hi, sizes, same, n);
    MakesIndependents(h0, d.State(), before, p, hi, sizes, same, n, chunks != null,
                      if hi in before then before[hi].size else 0);
  }

  /** Lines 5033-5045: clears the block and sets the array of pointers apart, unless the caller has one. */
  method PrepareCut(d: Dlmalloc, r: int, n: int, sizes: seq<int>, same: bool, zero: bool, contents: int, arraySize: int,
                    given: bool, ghost h0: Heap)
    returns (p: int, length: int, marray: int, ghost before: map<int, Block>)
    requires Good(d.State(), {}) && n >= 1 && NonNegative(sizes)
    requires contents == Offset(sizes, same, n) && arraySize == ArraySize(given, n)
    requires Allocated(h0, d.State(), r - MEM_OFFSET, contents + arraySize - CHUNK_OVERHEAD, contents + arraySize)
    modifies d`mem, d`cs
    ensures p == r - MEM_OFFSET && Cutting(d.State(), h0.m, LiveOf(h0.cs), before, p, p + length, sizes, same, 0, p)
    ensures contents <= length < contents + MIN_CHUNK_SIZE && (!given ==> length == contents)
    ensures given ==> before == LiveOf(h0.cs)
    ensures !given ==>
      && marray == p + length + MEM_OFFSET && p + length !in LiveOf(h0.cs) && p + length in before
      && before == LiveOf(h0.cs)[p + length := Block(before[p + length].size, 8 * n)]
      && before[p + length].size >= Request2Size(8 * n) >= 8 * n + CHUNK_OVERHEAD
    ensures forall a :: a in before ==> a < p || p + length <= a
    ensures zero ==> ClearUpTo(d.mem, p, p + length, sizes, same, 0)
  {
    hide Good, Allocated, Offset, Request2Size, LiveOf, Cutting, ClearUpTo, Size, Zeroed, AllZero, AfterArrayHead;
    p := r - MEM_OFFSET;
    ghost var h, req := d.State(), contents + arraySize - CHUNK_OVERHEAD;
    OthersOutside(h0, h, p, req, contents + arraySize);
    ReadTags(h, {}, p);
    TotalSize(sizes, same, n, given);
    Request2SizeFits(8 * n);
    length := Size(d.mem[p + HEAD]);
    ghost var end := p + length;
    if zero {
      PayloadHeld(h, {}, p);
      d.WriteZeros(r, length - CHUNK_OVERHEAD - arraySize);
      ClearedFresh(h0, h, d.mem, p, req, contents + arraySize, length - CHUNK_OVERHEAD - arraySize);
      ZeroedIsZero(h.m, d.mem, r, length - CHUNK_OVERHEAD - arraySize);
    }
    ghost var h1 := d.State();
    marray := 0;
    before := LiveOf(h0.cs);
    if given {
      WholeReady(h0, h1, p, req, contents + arraySize, sizes, same);
      if zero {
        ClearStart(d.mem, p, end, length - CHUNK_OVERHEAD, end + HEAD, 0, sizes, same);
      }
    } else {
      var arrayChunk := p + contents;
      var arrayChunkSize := length - contents;
      marray := arrayChunk + MEM_OFFSET;
      ArrayIsReady(h0, h1, p, req, contents + arraySize, contents, 8 * n, sizes, same);
      if zero {
        ClearStart(d.mem, p, arrayChunk, length - CHUNK_OVERHEAD - arraySize, arrayChunk + HEAD,
                   Head(arrayChunkSize, true, true), sizes, same);
      }
      d.mem := SetSizeAndPinuseOfInuseChunk(d.mem, arrayChunk, arrayChunkSize);
      d.cs := AfterArrayHead(h1, p, arrayChunk, end, 8 * n).cs;
      before := before[arrayChunk := Block(arrayChunkSize, 8 * n)];
      length := contents;
    }
  }
}
