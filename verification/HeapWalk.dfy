/** The check of the whole state of src/dlmalloc.rs, with the walk over all chunks that the port leaves as a stub. */
module HeapWalk {
  import opened Words
  import opened Memory
  import opened FreeIndex
  import opened Search
  import opened Tiling
  import opened HeapState
  import opened HeapOps
  import opened Freeing
  import opened Segments
  import opened NewSegments
  import opened Prepending
  import opened Canonical
  import opened Limits
  import opened Traffic
  import opened Accounts
  import opened Allocator
  import opened Checks

  /**
   `traverse_and_check` of src/dlmalloc.c, lines 3418-3446. It counts every held byte except the fenceposts, and none
   of its checks fails.
   */
  method TraverseAndCheck(d: Dlmalloc) returns (sum: int, ok: bool)
    requires d.Valid()
    ensures sum + FenceBytes(d.State(), |d.segs|) == d.footprint && ok
  {
    hide Good, Linked, Paged, LegalGranularity, Seen, Total, Outstanding, Peak;
    ghost var h := d.State();
    TopHasSegment(h);
    sum, ok := 0, true;
    if d.top == 0 {
      NoTotal();
      return;
    }
    GoodLinked(h, {});
    HeadRec(d.mem, d.segs);
    sum := d.topsize + TOP_FOOT_SIZE;
    var s := SEG;
    ghost var i := 0;
    while s != 0
      invariant ok && 0 <= i <= |d.segs| && s == RecAt(d.segs, i)
      invariant i == 0 ==> sum == d.topsize + TOP_FOOT_SIZE
      invariant i > 0 ==> sum + FenceBytes(h, i) == Total(d.segs[..i])
      decreases |d.segs| - i
    {
      ReadRecord(d.mem, d.segs, i);
      var walked, passed := WalkSegment(d, s, i);
      sum, ok := sum + walked, ok && passed;
      WalkCounts(h, i);
      TotalNext(d.segs, i);
      if i == 0 {
        assert d.segs[..0] == [];
        NoTotal();
      }
      s := d.mem[s + SEG_NEXT];
      i := i + 1;
    }
    EndOfList(d.mem, d.segs, i);
    assert d.segs[..|d.segs|] == d.segs;
  }

  /** The inner loop of `traverse_and_check`: the chunks of one segment, up to top or the fenceposts. */
  method WalkSegment(d: Dlmalloc, s: int, ghost i: int) returns (sum: int, ok: bool)
    requires Good(d.State(), {}) && 0 <= i < |d.segs| && d.top != 0 && Linked(d.mem, d.segs) && s == d.segs[i].rec
    ensures sum == WalkEnd(d.State(), i) - d.segs[i].base && ok
  {
    hide Good, Linked, Size, Inuse, Pinuse, IndexOk, InuseChecks, FreeChecks;
    ghost var h := d.State();
    ReadRecord(d.mem, d.segs, i);
    FirstNotEnd(h, i);
    HeldSeg(h, {}, i);
    WalkCounts(h, i);
    var q := AlignAsChunk(d.mem[s]);
    var lastq := 0;
    sum := 0;
    SeeChunk(h, i, q);
    ok := Pinuse(d.mem[q + HEAD]);
    while d.mem[s] <= q && q < d.mem[s] + d.mem[s + SEG_SIZE] && q != d.top && d.mem[q + HEAD] != FENCEPOST_HEAD
      invariant ok && Seen(h, i, q) && sum == q - d.segs[i].base && q <= WalkEnd(h, i)
      invariant lastq != 0 ==> lastq in d.cs && lastq + HEAD in d.mem
      invariant lastq != 0 && !Inuse(d.mem[lastq + HEAD]) ==> Used(d.cs[q].kind)
      decreases End(d.segs[i]) - q
    {
      WalkStep(h, i, q);
      var size := Size(d.mem[q + HEAD]);
      sum := sum + size;
      HeadInRange(h, q);
      var binned := d.BinFind(q);
      if Inuse(d.mem[q + HEAD]) {
        InuseHolds(h, q);
        ok := ok && !binned && InuseChecks(d.mem, q);
      } else {
        FreeHolds(h, q);
        ok := ok && (q == d.dv || binned) && (lastq == 0 || Inuse(d.mem[lastq + HEAD]))
              && FreeChecks(d.mem, d.dv, d.top, q);
      }
      lastq := q;
      q := q + size;
      SeeChunk(h, i, q);
    }
    WalkStops(h, i, q);
  }

  /**
   `check_malloc_state`, lines 1557-1583: whatever has been called before, the check of all bins, the victim, top and
   every chunk finds nothing.
   */
  method CheckMallocState(d: Dlmalloc) returns (ok: bool)
    requires d.Valid()
    ensures ok
  {
    hide Good, Paged, LegalGranularity, Total, FenceBytes, Outstanding, Peak;
    ok := true;
    for i := 0 to 32
      invariant ok
    {
      var bin := CheckSmallBin(d, i);
      ok := ok && bin;
    }
    for i := 0 to 32
      invariant ok
    {
      var bin := CheckTreeBin(d, i);
      ok := ok && bin;
    }
    var dv := CheckVictim(d);
    var top := CheckTop(d);
    var total, walk := TraverseAndCheck(d);
    FencesCount(d.State(), |d.segs|);
    BelowPeak(d.traffic);
    ok := ok && dv && top && walk && total <= d.footprint && d.footprint <= d.maxFootprint;
  }

  /** What `check_malloc_state` asserts of the designated victim. */
  method CheckVictim(d: Dlmalloc) returns (ok: bool)
    requires Good(d.State(), {})
    ensures ok
  {
    hide Good, Size, IndexOk;
    ok := true;
    if d.dvsize != 0 {
      VictimReads(d.State(), {});
      ReadTags(d.State(), {}, d.dv);
      HeadInRange(d.State(), d.dv);
      WhereFree(d.State(), {}, d.dv);
      var binned := d.BinFind(d.dv);
      ok := AnyChecks(d.mem, d.dv) && d.dvsize == Size(d.mem[d.dv + HEAD]) && d.dvsize >= MIN_CHUNK_SIZE && !binned;
    }
  }

  /** What it asserts of top. */
  method CheckTop(d: Dlmalloc) returns (ok: bool)
    requires Good(d.State(), {})
    ensures ok
  {
    hide Good, Size, IndexOk;
    ok := true;
    if d.top != 0 {
      TopHolds(d.State());
      WhereFree(d.State(), {}, d.top);
      HeadInRange(d.State(), d.top);
      var chunk := CheckTopChunk(d);
      var binned := d.BinFind(d.top);
      ok := chunk && d.topsize > 0 && !binned;
    }
  }

  lemma {:induction false} FencesCount(h: Heap, n: int)
    requires Good(h, {}) && 0 <= n <= |h.segs|
    ensures FenceBytes(h, n) >= 0
  {
    hide Good;
    if n > 1 {
      FencesCount(h, n - 1);
      WalkCounts(h, n - 1);
    }
  }
}
