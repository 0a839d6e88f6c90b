/** The methods of src/lib.rs: the C interface and the interface with layouts, on top of the allocator object. */
module Interface {
  import opened Words
  import opened Search
  import opened Tiling
  import opened HeapState
  import opened HeapOps
  import opened Freeing
  import opened Frames
  import opened Segments
  import opened Resizing
  import opened Limits
  import opened Policy
  import opened Traffic
  import opened Accounts
  import opened Allocator

  /** What the holder of a block may do at any time: write a byte of it. */
  method Write(d: Dlmalloc, ptr: int, offset: int, value: int)
    requires d.Valid() && ptr - MEM_OFFSET in LiveOf(d.cs)
    requires 0 <= offset < LiveOf(d.cs)[ptr - MEM_OFFSET].size - CHUNK_OVERHEAD
    modifies d`mem
    ensures d.Valid() && Untouched(old(d.mem), d.mem, LiveOf(d.cs) - {ptr - MEM_OFFSET})
    ensures ptr + offset in old(d.mem) && d.mem == old(d.mem)[ptr + offset := value]
  {
    hide Good, Untouched, LegalGranularity, Total, Paged, Outstanding, Peak;
    ghost var h := d.State();
    LiveIs(h, ptr - MEM_OFFSET);
    hide LiveOf;
    PayloadHeld(h, {}, ptr - MEM_OFFSET);
    d.mem := d.mem[ptr + offset := value];
    PayloadIsFree(h, d.mem, {}, ptr - MEM_OFFSET);
  }

  /** `c_memalign`, src/lib.rs:348-354, which `malloc` with a layout calls too. */
  method CMemalign(d: Dlmalloc, align: int, size: int) returns (r: int)
    requires d.Valid() && 0 <= size < WORD_LIMIT && Alignable(align, size, d.granularity)
    modifies d`mem, d`smallmap, d`treemap, d`ix, d`cs, d`segs, d`dv, d`dvsize, d`top, d`topsize, d`trimCheck,
      d`footprint, d`maxFootprint, d`releaseChecks, d`denials, d`traffic
    ensures d.Valid()
    ensures r == 0 ==> d.State() == old(d.State())
    ensures d.denials == old(d.denials) + if r == 0 && Asked(align, size) < MaxRequest(d.granularity) then 1 else 0
    ensures r != 0 ==> GuardHolds(align, d.granularity)
    ensures Extended(old(d.Ledger()), d.Ledger(), InHand(old(d.State()), Request2Size(Asked(align, size))))
    ensures r != 0 ==> AlignedBlock(old(d.State()), d.State(), r - MEM_OFFSET, size, Request2Size(size), align)
    ensures SystemUsed(old(d.State()), old(d.traffic), d.traffic, d.granularity, Asked(align, size), r)
  {
    hide Good, Allocated, AlignedBlock, LegalGranularity, Total, Paged, MaxRequest, Request2Size, IsPowerOfTwo,
         Served, InHand, VictimServed, Requested, SystemUsed, Outstanding, Peak;
    ghost var h := d.State();
    if align <= MALLOC_ALIGNMENT {
      r := d.Malloc(size);
      SmallAlignmentHolds(align, d.granularity);
      if r != 0 {
        AllocatedAligned(h, d.State(), r - MEM_OFFSET, size, Request2Size(size), align);
      }
    } else {
      r := d.Memalign(align, size);
    }
  }

  /** `calloc`, src/lib.rs:178-184 */
  method Calloc(d: Dlmalloc, size: int, align: int) returns (r: int)
    requires d.Valid() && 0 <= size < WORD_LIMIT && Alignable(align, size, d.granularity)
    modifies d`mem, d`smallmap, d`treemap, d`ix, d`cs, d`segs, d`dv, d`dvsize, d`top, d`topsize, d`trimCheck,
      d`footprint, d`maxFootprint, d`releaseChecks, d`denials, d`traffic
    ensures d.Valid()
    ensures r == 0 ==> d.State() == old(d.State())
    ensures r != 0 ==> AlignedBlock(old(d.State()), d.State(), r - MEM_OFFSET, size, Request2Size(size), align)
    ensures d.denials == old(d.denials) + if r == 0 && Asked(align, size) < MaxRequest(d.granularity) then 1 else 0
    ensures r != 0 ==> GuardHolds(align, d.granularity)
    ensures Extended(old(d.Ledger()), d.Ledger(), InHand(old(d.State()), Request2Size(Asked(align, size))))
    ensures r != 0 ==> forall w :: r <= w < r + size ==> w in d.mem && d.mem[w] == 0
    ensures SystemUsed(old(d.State()), old(d.traffic), d.traffic, d.granularity, Asked(align, size), r)
  {
    hide SystemUsed, Good, AlignedBlock, LegalGranularity, Total, Paged, MaxRequest, Request2Size, IsPowerOfTwo, LiveOf,
         Outstanding, Peak;
    ghost var h := d.State();
    r := CMemalign(d, align, size);
    if r != 0 {
      ghost var h1, q, nb := d.State(), r - MEM_OFFSET, Request2Size(size);
      AlignedObtained(h, h1, q, size, nb, align);
      ObtainedRoom(h, h1, q, size, nb);
      var allocatesZeros: bool := *;
      var must := d.CallocMustClear(r, allocatesZeros);
      if must {
        d.WriteZeros(r, size);
        ZerosArePayload(h, h1, d.mem, q, size, nb, align);
      }
    }
  }

  /** `c_free`, src/lib.rs:397-402 */
  method CFree(d: Dlmalloc, ptr: int)
    requires d.Valid() && (ptr != 0 ==> ptr - MEM_OFFSET in LiveOf(d.cs) && d.FreeSafe(ptr - MEM_OFFSET))
    modifies d`mem, d`smallmap, d`treemap, d`ix, d`cs, d`segs, d`dv, d`dvsize, d`top, d`topsize, d`trimCheck,
      d`footprint, d`releaseChecks, d`traffic
    ensures d.Valid()
    ensures if ptr == 0 then d.State() == old(d.State()) else Freed(old(d.State()), d.State(), ptr - MEM_OFFSET)
    ensures Reduced(old(d.Ledger()), d.Ledger(), old(d.PassUnreached(ptr - MEM_OFFSET)))
    ensures if ptr == 0 then d.traffic == old(d.traffic)
      else FreeRan(old(d.State()), old(d.Ledger()), d.Ledger(), ptr - MEM_OFFSET, d.granularity, d.maxReleaseCheckRate,
                   Since(old(d.traffic), d.traffic))
  {
    hide Good, Freed, LegalGranularity, Total, Paged, LiveOf, Outstanding, Peak, FreeRan, VictimFreed;
    if ptr == 0 {
      return;
    }
    d.Free(ptr);
  }

  /** `free` with a layout, src/lib.rs:204-208: the check of the size never fails for the last size asked for. */
  method FreeSized(d: Dlmalloc, ptr: int, size: int, align: int)
    requires d.Valid() && ptr - MEM_OFFSET in LiveOf(d.cs) && LiveOf(d.cs)[ptr - MEM_OFFSET].req == size
    requires d.FreeSafe(ptr - MEM_OFFSET)
    modifies d`mem, d`smallmap, d`treemap, d`ix, d`cs, d`segs, d`dv, d`dvsize, d`top, d`topsize, d`trimCheck,
      d`footprint, d`releaseChecks, d`traffic
    ensures d.Valid() && Freed(old(d.State()), d.State(), ptr - MEM_OFFSET)
    ensures Reduced(old(d.Ledger()), d.Ledger(), old(d.PassUnreached(ptr - MEM_OFFSET)))
    ensures FreeRan(old(d.State()), old(d.Ledger()), d.Ledger(), ptr - MEM_OFFSET, d.granularity, d.maxReleaseCheckRate,
                    Since(old(d.traffic), d.traffic))
  {
    hide Good, Freed, LegalGranularity, Total, Paged, LiveOf, Outstanding, Peak, FreeRan;
    var ok := d.ValidateSize(ptr, size);
    assert ok;
    assert ptr != 0 by { LivePlace(d.State(), ptr - MEM_OFFSET); }
    CFree(d, ptr);
  }

  /** `c_realloc`, src/lib.rs:379-384 */
  method CRealloc(d: Dlmalloc, ptr: int, newSize: int) returns (r: int)
    requires d.Valid() && 0 <= newSize < WORD_LIMIT && (ptr != 0 ==> ptr - MEM_OFFSET in LiveOf(d.cs))
    requires
      || ptr == 0 || newSize >= MaxRequest(d.granularity)
      || RoomInPlace(d.State(), ptr - MEM_OFFSET, Request2Size(newSize)) || d.MoveSafe(Request2Size(newSize))
    modifies d`mem, d`smallmap, d`treemap, d`ix, d`cs, d`segs, d`dv, d`dvsize, d`top, d`topsize, d`trimCheck,
      d`footprint, d`maxFootprint, d`releaseChecks, d`denials, d`traffic
    ensures d.Valid() && Shifted(old(d.Ledger()), d.Ledger(), ptr == 0 || old(d.Calm()))
    ensures r == 0 ==> d.State() == old(d.State())
    ensures d.denials == old(d.denials) + if r == 0 && newSize < MaxRequest(d.granularity) then 1 else 0
    ensures r != 0 && ptr == 0 ==> Allocated(old(d.State()), d.State(), r - MEM_OFFSET, newSize, Request2Size(newSize))
    ensures r != 0 && ptr != 0 ==>
      Reallocated(old(d.State()), d.State(), ptr - MEM_OFFSET, r - MEM_OFFSET, newSize, Request2Size(newSize),
                  Kept(old(LiveOf(d.cs)), ptr - MEM_OFFSET, newSize))
    ensures r == 0 || ptr == 0 ==> SystemUsed(old(d.State()), old(d.traffic), d.traffic, d.granularity, newSize, r)
  {
    hide Good, Reallocated, Allocated, LegalGranularity, Total, Paged, LiveOf, MaxRequest, Request2Size, Served,
         InHand, VictimServed, RoomInPlace, Requested, SystemUsed, Outstanding, Peak;
    if ptr == 0 {
      r := d.Malloc(newSize);
      return;
    }
    r := d.Realloc(ptr, newSize);
  }

  /** `realloc` with a layout, src/lib.rs:238-258 */
  method ReallocSized(d: Dlmalloc, ptr: int, oldSize: int, oldAlign: int, newSize: int) returns (r: int)
    requires d.Valid() && 0 <= newSize < WORD_LIMIT && Alignable(oldAlign, newSize, d.granularity)
    requires
      || d.MoveSafe(Request2Size(Asked(oldAlign, newSize)))
      || (oldAlign <= MALLOC_ALIGNMENT && (newSize >= MaxRequest(d.granularity)
          || RoomInPlace(d.State(), ptr - MEM_OFFSET, Request2Size(newSize))))
    requires ptr - MEM_OFFSET in LiveOf(d.cs) && LiveOf(d.cs)[ptr - MEM_OFFSET].req == oldSize
    modifies d`mem, d`smallmap, d`treemap, d`ix, d`cs, d`segs, d`dv, d`dvsize, d`top, d`topsize, d`trimCheck,
      d`footprint, d`maxFootprint, d`releaseChecks, d`denials, d`traffic
    ensures d.Valid() && Shifted(old(d.Ledger()), d.Ledger(), old(d.Calm()))
    ensures r == 0 ==> d.State() == old(d.State())
    ensures d.denials == old(d.denials) +
      if r == 0 && Asked(oldAlign, newSize) < MaxRequest(d.granularity) then 1 else 0
    ensures r != 0 ==>
      Reallocated(old(d.State()), d.State(), ptr - MEM_OFFSET, r - MEM_OFFSET, newSize, Request2Size(newSize),
                  if oldAlign <= MALLOC_ALIGNMENT then Kept(old(LiveOf(d.cs)), ptr - MEM_OFFSET, newSize)
                  else Min(oldSize, newSize))
    ensures Kept(old(LiveOf(d.cs)), ptr - MEM_OFFSET, newSize) >= Min(oldSize, newSize)
    ensures r != 0 && oldAlign > MALLOC_ALIGNMENT ==> AlignedTo(r, oldAlign)
    ensures r == 0 ==>
      SystemUsed(old(d.State()), old(d.traffic), d.traffic, d.granularity, Asked(oldAlign, newSize), r)
  {
    hide Good, Reallocated, Allocated, AlignedBlock, Obtained, LegalGranularity, Total, Paged, LiveOf, MaxRequest,
         Request2Size, IsPowerOfTwo, AlignedTo, Copied, Freed, Untouched, Served, InHand, SystemUsed, FreeRan,
         Outstanding, Peak;
    ghost var h := d.State();
    var ok := d.ValidateSize(ptr, oldSize);
    assert ok;
    LivePlace(h, ptr - MEM_OFFSET);
    LiveHasTop(h, ptr - MEM_OFFSET);
    if oldAlign <= MALLOC_ALIGNMENT {
      r := CRealloc(d, ptr, newSize);
    } else {
      r := CMemalign(d, oldAlign, newSize);
      if r != 0 {
        var size := if oldSize < newSize then oldSize else newSize;
        AlignedObtained(h, d.State(), r - MEM_OFFSET, newSize, Request2Size(newSize), oldAlign);
        ObtainedHasTop(h, d.State(), r - MEM_OFFSET, newSize, Request2Size(newSize));
        ghost var h1 := d.State();
        d.CopyOut(ptr, r, size, newSize, Request2Size(newSize), h);
        ghost var h2 := d.State();
        FreeSized(d, ptr, oldSize, oldAlign);
        Moved(h, h1, h2, d.State(), ptr - MEM_OFFSET, r - MEM_OFFSET, newSize, Request2Size(newSize), size);
      }
    }
  }
}
