/**
 Whole runs: a client that allocates, resizes, writes and releases blocks through the layout interface of src/lib.rs
 sees a plain store of byte sequences, whatever the sequence of its calls and whoever else uses the heap.
 */
module Clients {
  import opened Words
  import opened Memory
  import opened Tiling
  import opened HeapState
  import opened HeapOps
  import opened Freeing
  import opened Resizing
  import opened Segments
  import opened Limits
  import opened Releasing
  import opened Policy
  import opened Traffic
  import opened Accounts
  import opened Allocator
  import opened Interface

  /** A block as its holder knows it. */
  datatype Item = Item(align: int, data: seq<int>)

  type Store = map<int, Item>

  datatype Call =
    | Allocate(size: int, align: int, zeroed: bool)
    | Resize(ptr: int, size: int)
    | Release(ptr: int)
    | Put(ptr: int, offset: int, value: int)
    | Shrink(pad: int)

  /** What a layout and a C caller can pass. */
  predicate WellFormed(c: Call, granularity: int) {
    match c
    case Allocate(size, align, _) =>
      0 <= size < WORD_LIMIT && Alignable(align, size, granularity)
    case Resize(_, size) => 0 <= size < WORD_LIMIT
    case Shrink(pad) => 0 <= pad
    case _ => true
  }

  predicate SamePrefix(a: seq<int>, b: seq<int>) {
    var n := Min(|a|, |b|);
    0 <= n && n <= |a| && n <= |b| && a[..n] == b[..n]
  }

  ghost predicate Stored(s: Store, s': Store, gone: set<int>, ptr: int, item: Item) {
    && (ptr in gone || ptr !in s) && s' == (s - gone)[ptr := item] && AlignedTo(ptr, item.align)
  }

  /** A call that is turned down changes nothing, and it is turned down for its size or because the system refused. */
  predicate TurnedDown(s: Store, align: int, size: int, s': Store, granularity: int, refused: bool) {
    s' == s && (refused || Asked(align, size) >= MaxRequest(granularity))
  }

  /** One call on the store; `refused` if the system refused memory for it. A call on a block not held is not made. */
  ghost predicate Step(s: Store, c: Call, s': Store, granularity: int, refused: bool) {
    match c
    case Allocate(size, align, zeroed) =>
      || TurnedDown(s, align, size, s', granularity, refused)
      || (!refused && exists ptr, data: seq<int> ::
            && Stored(s, s', {}, ptr, Item(align, data)) && |data| == size
            && (zeroed ==> forall i :: 0 <= i < size ==> data[i] == 0))
    case Resize(ptr, size) =>
      if ptr !in s then s' == s && !refused else
      || TurnedDown(s, s[ptr].align, size, s', granularity, refused)
      || (!refused && exists q, data: seq<int> ::
            Stored(s, s', {ptr}, q, Item(s[ptr].align, data)) && |data| == size && SamePrefix(s[ptr].data, data))
    case Release(ptr) => s' == s - {ptr} && !refused
    case Put(ptr, offset, value) =>
      s' == if ptr in s && 0 <= offset < |s[ptr].data|
            then s[ptr := s[ptr].(data := s[ptr].data[offset := value])] else s
    case Shrink(_) => s' == s && !refused
  }

  // ---------- what ties the store to the heap ----------

  /** The block's bytes are the item's data, and the allocator knows the last size asked for. */
  ghost predicate Backed(m: Mem, live: map<int, Block>, ptr: int, item: Item) {
    && ptr - MEM_OFFSET in live && live[ptr - MEM_OFFSET].req == |item.data|
    && |item.data| + CHUNK_OVERHEAD <= live[ptr - MEM_OFFSET].size
    && Reads(m, ptr, item.data)
  }

  ghost predicate ByteIs(m: Mem, w: int, v: int) { w in m && m[w] == v }

  ghost predicate Reads(m: Mem, ptr: int, data: seq<int>) {
    forall i :: 0 <= i < |data| ==> ByteIs(m, ptr + i, data[i])
  }

  /** The blocks of the heap are those of the store and those that were there before, which nobody has written to. */
  ghost predicate Serves(m: Mem, live: map<int, Block>, s: Store, m0: Mem, live0: map<int, Block>) {
    && (forall ptr :: ptr in s ==> Backed(m, live, ptr, s[ptr]) && ptr - MEM_OFFSET !in live0)
    && (forall a :: a in live ==> a in live0 || a + MEM_OFFSET in s)
    && (forall a :: a in live0 ==> a in live && live[a] == live0[a])
    && Untouched(m0, m, live0)
  }

  predicate Layouts(s: Store, granularity: int) {
    forall ptr :: ptr in s ==>
      IsPowerOfTwo(s[ptr].align) && s[ptr].align < WORD_LIMIT && GuardHolds(s[ptr].align, granularity)
  }

  function Bytes(m: Mem, ptr: int, n: int): (b: seq<int>)
    requires n >= 0
    ensures |b| == n && forall i :: 0 <= i < n && ptr + i in m ==> b[i] == m[ptr + i]
  {
    seq(n, i => if ptr + i in m then m[ptr + i] else 0)
  }

  lemma BackedFrame(m: Mem, m': Mem, live: map<int, Block>, live': map<int, Block>, ptr: int, item: Item)
    requires Backed(m, live, ptr, item)
    requires ptr - MEM_OFFSET in live' && live'[ptr - MEM_OFFSET] == live[ptr - MEM_OFFSET]
    requires SamePayload(m, m', ptr - MEM_OFFSET, live[ptr - MEM_OFFSET].size)
    ensures Backed(m', live', ptr, item)
  {
    var p, size := ptr - MEM_OFFSET, live[ptr - MEM_OFFSET].size;
    forall i | 0 <= i < |item.data|
      ensures ByteIs(m', ptr + i, item.data[i])
    {
      assert ByteIs(m, ptr + i, item.data[i]);
      assert Payload(p, size, ptr + i);
    }
  }

  /** Everything but the blocks in `gone` is kept; the block at `ptr` is new or new in contents. */
  lemma ServesNext(m: Mem, m': Mem, live: map<int, Block>, live': map<int, Block>, s: Store, gone: set<int>, ptr: int,
                   item: Item, m0: Mem, live0: map<int, Block>)
    requires Serves(m, live, s, m0, live0) && gone <= s.Keys
    requires ptr in gone || ptr - MEM_OFFSET !in live
    requires ptr - MEM_OFFSET in live' && live' == (live - Chunks(gone))[ptr - MEM_OFFSET := live'[ptr - MEM_OFFSET]]
    requires Untouched(m, m', live - Chunks(gone)) && Backed(m', live', ptr, item)
    ensures Serves(m', live', (s - gone)[ptr := item], m0, live0)
    ensures ptr in gone || ptr !in s
  {
    hide Untouched, Backed, Chunks;
    var s' := (s - gone)[ptr := item];
    Remaining(m, m', live, s, gone, m0, live0);
    BackedBlock(m', live', ptr, item);
    forall q | q in s'
      ensures Backed(m', live', q, s'[q]) && q - MEM_OFFSET !in live0
    {
      if q != ptr {
        assert Backed(m', live - Chunks(gone), q, s[q]);
        BackedBlock(m', live - Chunks(gone), q, s[q]);
        SameBacking(m', live - Chunks(gone), live', q, s[q]);
      } else if ptr in gone {
        assert Backed(m, live, ptr, s[ptr]);
      }
    }
    forall a | a in live'
      ensures a in live0 || a + MEM_OFFSET in s'
    {
      assert a != ptr - MEM_OFFSET ==> a in live - Chunks(gone);
    }
    assert ptr !in gone && ptr in s ==> Backed(m, live, ptr, s[ptr]);
    if ptr !in gone && ptr in s {
      BackedBlock(m, live, ptr, s[ptr]);
    }
  }

  lemma BackedBlock(m: Mem, live: map<int, Block>, ptr: int, item: Item)
    requires Backed(m, live, ptr, item)
    ensures ptr - MEM_OFFSET in live
  {
  }

  /** The chunks of these blocks. */
  function Chunks(ptrs: set<int>): set<int> { set ptr | ptr in ptrs :: ptr - MEM_OFFSET }

  lemma InChunks(ptrs: set<int>)
    ensures forall a :: a in Chunks(ptrs) <==> a + MEM_OFFSET in ptrs
  {
    forall a | a + MEM_OFFSET in ptrs
      ensures a in Chunks(ptrs)
    {
      assert a == a + MEM_OFFSET - MEM_OFFSET;
    }
  }

  lemma SameBacking(m: Mem, live: map<int, Block>, live': map<int, Block>, ptr: int, item: Item)
    requires Backed(m, live, ptr, item)
    requires ptr - MEM_OFFSET in live' && live'[ptr - MEM_OFFSET] == live[ptr - MEM_OFFSET]
    ensures Backed(m, live', ptr, item)
  {
    hide Reads;
  }

  lemma StillBacked(m: Mem, m': Mem, live: map<int, Block>, live': map<int, Block>, ptr: int, item: Item)
    requires Backed(m, live, ptr, item) && Untouched(m, m', live')
    requires ptr - MEM_OFFSET in live ==> ptr - MEM_OFFSET in live' && live'[ptr - MEM_OFFSET] == live[ptr - MEM_OFFSET]
    ensures Backed(m', live', ptr, item)
  {
    assert SamePayload(m, m', ptr - MEM_OFFSET, live'[ptr - MEM_OFFSET].size);
    hide SamePayload;
    BackedFrame(m, m', live, live', ptr, item);
  }

  /** Blocks that are not among those given up stay as they are. */
  lemma Remaining(m: Mem, m': Mem, live: map<int, Block>, s: Store, gone: set<int>, m0: Mem, live0: map<int, Block>)
    requires Serves(m, live, s, m0, live0) && gone <= s.Keys && Untouched(m, m', live - Chunks(gone))
    ensures Serves(m', live - Chunks(gone), s - gone, m0, live0)
  {
    hide Backed, SamePayload;
    var live', s' := live - Chunks(gone), s - gone;
    InChunks(gone);
    forall q | q in s'
      ensures Backed(m', live', q, s'[q]) && q - MEM_OFFSET !in live0
    {
      assert Backed(m, live, q, s[q]);
      assert q - MEM_OFFSET !in Chunks(gone);
      StillBacked(m, m', live, live', q, s[q]);
    }
    forall a | a in live0
      ensures a in live' && live'[a] == live0[a]
    {
      assert a + MEM_OFFSET !in s;
    }
    forall a | a in live'
      ensures a in live0 || a + MEM_OFFSET in s'
    {
      assert a !in Chunks(gone);
    }
    UntouchedFewer(m, m', live', live0);
    UntouchedTrans(m0, m, m', live0);
  }

  // ---------- what each call does ----------

  lemma AfterAllocate(h: Heap, h': Heap, q: int, size: int, nb: int, align: int, s: Store, m0: Mem,
                      live0: map<int, Block>)
    requires AlignedBlock(h, h', q, size, nb, align) && Good(h', {}) && Serves(h.m, LiveOf(h.cs), s, m0, live0)
    ensures size >= 0
    ensures var ptr := q + MEM_OFFSET; var item := Item(align, Bytes(h'.m, ptr, size));
      Serves(h'.m, LiveOf(h'.cs), s[ptr := item], m0, live0) && Stored(s, s[ptr := item], {}, ptr, item)
  {
    hide Good, Serves, LiveOf, Untouched, Fits;
    AlignedObtained(h, h', q, size, nb, align);
    ObtainedRoom(h, h', q, size, nb);
    var ptr := q + MEM_OFFSET;
    var item := Item(align, Bytes(h'.m, ptr, size));
    var live, live' := LiveOf(h.cs), LiveOf(h'.cs);
    assert Backed(h'.m, live', ptr, item);
    assert Chunks({}) == {} && live - {} == live && s - {} == s;
    ServesNext(h.m, h'.m, live, live', s, {}, ptr, item, m0, live0);
  }

  lemma AfterResize(h: Heap, h': Heap, p: int, q: int, size: int, nb: int, n: int, s: Store, m0: Mem,
                    live0: map<int, Block>)
    requires Good(h', {}) && Serves(h.m, LiveOf(h.cs), s, m0, live0)
    requires p + MEM_OFFSET in s && Reallocated(h, h', p, q, size, nb, n) && n >= Min(|s[p + MEM_OFFSET].data|, size)
    requires AlignedTo(q + MEM_OFFSET, s[p + MEM_OFFSET].align)
    ensures size >= 0
    ensures var ptr := p + MEM_OFFSET; var item := Item(s[ptr].align, Bytes(h'.m, q + MEM_OFFSET, size));
      var s' := (s - {ptr})[q + MEM_OFFSET := item];
      && Serves(h'.m, LiveOf(h'.cs), s', m0, live0) && Stored(s, s', {ptr}, q + MEM_OFFSET, item)
      && SamePrefix(s[ptr].data, item.data)
  {
    hide Good, LiveOf, Untouched, SamePayload;
    var ptr := p + MEM_OFFSET;
    var live, live' := LiveOf(h.cs), LiveOf(h'.cs);
    assert Backed(h.m, live, ptr, s[ptr]);
    SlackOfLive(h', q);
    var item := Item(s[ptr].align, Bytes(h'.m, q + MEM_OFFSET, size));
    PayloadIsHeld(h', q);
    assert Backed(h'.m, live', q + MEM_OFFSET, item);
    PrefixMoved(h.m, h'.m, live, p, q, n, s[ptr].data, item.data);
    assert Chunks({ptr}) == {p} by { InChunks({ptr}); }
    hide Serves, Backed, SamePrefix, SameBytes;
    ServesNext(h.m, h'.m, live, live', s, {ptr}, q + MEM_OFFSET, item, m0, live0);
  }

  lemma PayloadIsHeld(h: Heap, q: int)
    requires Good(h, {}) && q in LiveOf(h.cs)
    ensures Held(h.m, q, q + LiveOf(h.cs)[q].size + WORD_BYTES)
  {
    hide Good;
    PayloadHeld(h, {}, q);
  }

  lemma PrefixMoved(m: Mem, m': Mem, live: map<int, Block>, p: int, q: int, n: int, data: seq<int>, data': seq<int>)
    requires SameBytes(m, p, m', q, n) && n >= Min(|data|, |data'|)
    requires Reads(m, p + MEM_OFFSET, data)
    requires forall i :: 0 <= i < |data'| && q + MEM_OFFSET + i in m' ==> data'[i] == m'[q + MEM_OFFSET + i]
    ensures SamePrefix(data, data')
  {
    forall i | 0 <= i < Min(|data|, |data'|)
      ensures data[i] == data'[i]
    {
      var w := p + MEM_OFFSET + i;
      assert ByteIs(m, w, data[i]);
      assert w in m && q + (w - p) in m' && m'[q + (w - p)] == m[w];
      assert q + (w - p) == q + MEM_OFFSET + i;
    }
  }

  lemma AfterRelease(h: Heap, h': Heap, p: int, s: Store, m0: Mem, live0: map<int, Block>)
    requires Freed(h, h', p) && Serves(h.m, LiveOf(h.cs), s, m0, live0) && p + MEM_OFFSET in s
    ensures Serves(h'.m, LiveOf(h'.cs), s - {p + MEM_OFFSET}, m0, live0)
  {
    hide LiveOf, Untouched, Serves;
    assert Chunks({p + MEM_OFFSET}) == {p} by { InChunks({p + MEM_OFFSET}); }
    Remaining(h.m, h'.m, LiveOf(h.cs), s, {p + MEM_OFFSET}, m0, live0);
  }

  lemma AfterPut(m: Mem, m': Mem, live: map<int, Block>, s: Store, ptr: int, offset: int, value: int, m0: Mem,
                 live0: map<int, Block>)
    requires Serves(m, live, s, m0, live0) && ptr in s && 0 <= offset < |s[ptr].data|
    requires m' == m[ptr + offset := value] && Untouched(m, m', live - {ptr - MEM_OFFSET})
    ensures Serves(m', live, s[ptr := s[ptr].(data := s[ptr].data[offset := value])], m0, live0)
  {
    var item := s[ptr].(data := s[ptr].data[offset := value]);
    assert Backed(m, live, ptr, s[ptr]);
    forall i | 0 <= i < |item.data|
      ensures ByteIs(m', ptr + i, item.data[i])
    {
      assert ByteIs(m, ptr + i, s[ptr].data[i]);
    }
    assert Backed(m', live, ptr, item);
    hide Serves, Untouched, Backed;
    assert Chunks({ptr}) == {ptr - MEM_OFFSET} by { InChunks({ptr}); }
    InLiveAgain(m, live, s, ptr, m0, live0);
    ServesNext(m, m', live, live, s, {ptr}, ptr, item, m0, live0);
    assert (s - {ptr})[ptr := item] == s[ptr := item];
  }

  lemma InLiveAgain(m: Mem, live: map<int, Block>, s: Store, ptr: int, m0: Mem, live0: map<int, Block>)
    requires Serves(m, live, s, m0, live0) && ptr in s
    ensures ptr - MEM_OFFSET in live
    ensures live == (live - {ptr - MEM_OFFSET})[ptr - MEM_OFFSET := live[ptr - MEM_OFFSET]]
  {
    hide Untouched;
  }

  lemma AfterOthers(m: Mem, m': Mem, live: map<int, Block>, s: Store, m0: Mem, live0: map<int, Block>)
    requires Serves(m, live, s, m0, live0) && Untouched(m, m', live)
    ensures Serves(m', live, s, m0, live0)
  {
    hide Serves, Untouched;
    assert Chunks({}) == {} && live - {} == live && s - {} == s;
    Remaining(m, m', live, s, {}, m0, live0);
  }

  // ---------- the steps of the store ----------

  lemma StepAllocate(s: Store, size: int, align: int, zeroed: bool, ptr: int, item: Item, granularity: int)
    requires Stored(s, s[ptr := item], {}, ptr, item) && item.align == align && |item.data| == size
    requires zeroed ==> forall i :: 0 <= i < size ==> item.data[i] == 0
    ensures Step(s, Allocate(size, align, zeroed), s[ptr := item], granularity, false)
  {
    assert item == Item(align, item.data);
  }

  lemma StepResize(s: Store, s': Store, ptr: int, size: int, q: int, item: Item, granularity: int)
    requires ptr in s && Stored(s, s', {ptr}, q, item) && item.align == s[ptr].align && |item.data| == size
    requires SamePrefix(s[ptr].data, item.data)
    ensures Step(s, Resize(ptr, size), s', granularity, false)
  {
    hide SamePrefix, Stored;
    assert item == Item(s[ptr].align, item.data);
  }

  // ---------- the run ----------

  /** `malloc` or `calloc` with a layout. */
  method PerformAllocate(a: Dlmalloc, size: int, align: int, zeroed: bool, s: Store, ghost m0: Mem,
                         ghost live0: map<int, Block>, ghost n: nat)
    returns (s': Store, ghost refused: bool)
    requires a.Valid() && WellFormed(Allocate(size, align, zeroed), a.granularity) && Layouts(s, a.granularity)
    requires Serves(a.mem, LiveOf(a.cs), s, m0, live0) && a.RunSafe(n + 1)
    modifies a
    ensures a.Valid() && a.granularity == old(a.granularity) && Layouts(s', a.granularity) && a.RunSafe(n)
    ensures old(a.WholeRegions()) ==> a.WholeRegions()
    ensures Serves(a.mem, LiveOf(a.cs), s', m0, live0) && a.denials == old(a.denials) + if refused then 1 else 0
    ensures Step(s, Allocate(size, align, zeroed), s', a.granularity, refused)
  {
    hide Good, LiveOf, Serves, Untouched, LegalGranularity, Total, Paged, MaxRequest, IsPowerOfTwo, AlignedBlock,
         Request2Size, Stored, AlignedTo, AllLarge, TailLarge, InHand, Asked, Outstanding, Peak;
    ghost var h := a.State();
    var r: int;
    if zeroed {
      r := Calloc(a, size, align);
    } else {
      r := CMemalign(a, align, size);
    }
    refused := a.denials > old(a.denials);
    s' := s;
    if r != 0 {
      hide Step;
      AfterAllocate(h, a.State(), r - MEM_OFFSET, size, Request2Size(size), align, s, m0, live0);
      var item := Item(align, Bytes(a.mem, r, size));
      StepAllocate(s, size, align, zeroed, r, item, a.granularity);
      s' := s[r := item];
    }
  }

  /** `realloc` with a layout. */
  method PerformResize(a: Dlmalloc, ptr: int, size: int, s: Store, ghost m0: Mem, ghost live0: map<int, Block>,
                       ghost n: nat)
    returns (s': Store, ghost refused: bool)
    requires a.Valid() && a.RunSafe(n + 1) && WellFormed(Resize(ptr, size), a.granularity)
    requires Layouts(s, a.granularity) && Serves(a.mem, LiveOf(a.cs), s, m0, live0)
    modifies a
    ensures a.Valid() && a.granularity == old(a.granularity) && Layouts(s', a.granularity) && a.RunSafe(n)
    ensures old(a.WholeRegions()) ==> a.WholeRegions()
    ensures Serves(a.mem, LiveOf(a.cs), s', m0, live0) && a.denials == old(a.denials) + if refused then 1 else 0
    ensures Step(s, Resize(ptr, size), s', a.granularity, refused)
  {
    hide Good, LiveOf, Serves, Untouched, LegalGranularity, Total, Paged, MaxRequest, IsPowerOfTwo, Reallocated,
         Request2Size, Stored, AlignedTo, SamePrefix, Kept, AllLarge, TailLarge, InHand, Asked, RoomInPlace,
         Outstanding, Peak;
    s', refused := s, false;
    if ptr in s {
      ghost var h := a.State();
      ghost var k := Min(|s[ptr].data|, size);
      if s[ptr].align <= MALLOC_ALIGNMENT {
        k := Kept(LiveOf(a.cs), ptr - MEM_OFFSET, size);
      }
      assert Backed(a.mem, LiveOf(a.cs), ptr, s[ptr]) by { ServesAt(a.mem, LiveOf(a.cs), s, ptr, m0, live0); }
      LiveHasTop(h, ptr - MEM_OFFSET);
      if a.WholeRegions() {
        PagedIsLarge(h, {});
      }
      var r := ReallocSized(a, ptr, |s[ptr].data|, s[ptr].align, size);
      refused := a.denials > old(a.denials);
      if r != 0 {
        hide Step;
        ReallocAligned(h, a.State(), ptr - MEM_OFFSET, r - MEM_OFFSET, size, Request2Size(size), k, s[ptr].align);
        AfterResize(h, a.State(), ptr - MEM_OFFSET, r - MEM_OFFSET, size, Request2Size(size), k, s, m0, live0);
        var item := Item(s[ptr].align, Bytes(a.mem, r, size));
        StepResize(s, (s - {ptr})[r := item], ptr, size, r, item, a.granularity);
        s' := (s - {ptr})[r := item];
      }
    }
  }

  lemma ServesAt(m: Mem, live: map<int, Block>, s: Store, ptr: int, m0: Mem, live0: map<int, Block>)
    requires Serves(m, live, s, m0, live0) && ptr in s
    ensures Backed(m, live, ptr, s[ptr])
  {
    hide Backed, Untouched;
  }

  /** Every block is aligned to 16 bytes. */
  lemma ReallocAligned(h: Heap, h': Heap, p: int, q: int, req: int, nb: int, n: int, align: int)
    requires Reallocated(h, h', p, q, req, nb, n) && Good(h', {}) && IsPowerOfTwo(align)
    ensures align <= MALLOC_ALIGNMENT ==> AlignedTo(q + MEM_OFFSET, align)
  {
    hide Good, Untouched, IsPowerOfTwo, Size, Pinuse, Cinuse, InuseBits;
    LiveIs(h', q);
    ReadTags(h', {}, q);
    PowerFacts(align);
    if align <= MALLOC_ALIGNMENT {
      SmallAlignment(q + MEM_OFFSET, align);
    }
  }

  /** `free` with a layout. */
  method PerformRelease(a: Dlmalloc, ptr: int, s: Store, ghost m0: Mem, ghost live0: map<int, Block>, ghost n: nat)
    returns (s': Store)
    requires a.Valid() && a.RunSafe(n + 1) && Layouts(s, a.granularity)
    requires Serves(a.mem, LiveOf(a.cs), s, m0, live0)
    modifies a
    ensures a.Valid() && a.granularity == old(a.granularity) && Layouts(s', a.granularity) && a.RunSafe(n)
    ensures old(a.WholeRegions()) ==> a.WholeRegions()
    ensures Serves(a.mem, LiveOf(a.cs), s', m0, live0) && a.denials == old(a.denials)
    ensures Step(s, Release(ptr), s', a.granularity, false)
  {
    hide Good, LiveOf, Serves, Untouched, LegalGranularity, Total, Paged, MaxRequest, IsPowerOfTwo, Freed, AllLarge,
         TailLarge, Outstanding, Peak;
    s' := s - {ptr};
    if ptr in s {
      ghost var h := a.State();
      assert Backed(a.mem, LiveOf(a.cs), ptr, s[ptr]) by { ServesAt(a.mem, LiveOf(a.cs), s, ptr, m0, live0); }
      LiveHasTop(h, ptr - MEM_OFFSET);
      if a.WholeRegions() {
        PagedIsLarge(h, {});
        AllIsTail(a.segs);
      }
      FreeSized(a, ptr, |s[ptr].data|, s[ptr].align);
      AfterRelease(h, a.State(), ptr - MEM_OFFSET, s, m0, live0);
    } else {
      assert s' == s;
    }
  }

  /** The client writes a byte of a block it holds. */
  method PerformPut(a: Dlmalloc, ptr: int, offset: int, value: int, s: Store, ghost m0: Mem,
                    ghost live0: map<int, Block>)
    returns (s': Store)
    requires a.Valid() && Layouts(s, a.granularity) && Serves(a.mem, LiveOf(a.cs), s, m0, live0)
    modifies a`mem
    ensures a.Valid() && Layouts(s', a.granularity)
    ensures Serves(a.mem, LiveOf(a.cs), s', m0, live0) && Step(s, Put(ptr, offset, value), s', a.granularity, false)
  {
    hide Good, LiveOf, Serves, Untouched, LegalGranularity, Total, Paged, MaxRequest, IsPowerOfTwo, Outstanding, Peak;
    s' := s;
    if ptr in s && 0 <= offset < |s[ptr].data| {
      ghost var m := a.mem;
      assert Backed(m, LiveOf(a.cs), ptr, s[ptr]) by { ServesAt(m, LiveOf(a.cs), s, ptr, m0, live0); }
      Write(a, ptr, offset, value);
      AfterPut(m, a.mem, LiveOf(a.cs), s, ptr, offset, value, m0, live0);
      s' := s[ptr := s[ptr].(data := s[ptr].data[offset := value])];
    }
  }

  /** Makes one call, if the client holds the block it is about. */
  method Perform(a: Dlmalloc, c: Call, s: Store, ghost m0: Mem, ghost live0: map<int, Block>, ghost n: nat)
    returns (s': Store, ghost refused: bool)
    requires a.Valid() && a.RunSafe(n + 1) && WellFormed(c, a.granularity) && Layouts(s, a.granularity)
    requires Serves(a.mem, LiveOf(a.cs), s, m0, live0) && (c.Shrink? && a.releases ==> a.WholeRegions())
    modifies a
    ensures a.Valid() && a.granularity == old(a.granularity) && Layouts(s', a.granularity) && a.RunSafe(n)
    ensures old(a.WholeRegions()) ==> a.WholeRegions()
    ensures Serves(a.mem, LiveOf(a.cs), s', m0, live0) && a.denials == old(a.denials) + if refused then 1 else 0
    ensures Step(s, c, s', a.granularity, refused)
  {
    hide Good, LiveOf, Serves, Untouched, LegalGranularity, Total, Paged, MaxRequest, IsPowerOfTwo, AlignedBlock,
         Reallocated, Freed, Request2Size, Stored, SamePrefix, AlignedTo, TailLarge, AllLarge, PassSafe, TurnedDown,
         Outstanding, Peak;
    s', refused := s, false;
    match c
    case Allocate(size, align, zeroed) => s', refused := PerformAllocate(a, size, align, zeroed, s, m0, live0, n);
    case Resize(ptr, size) => s', refused := PerformResize(a, ptr, size, s, m0, live0, n);
    case Release(ptr) => s' := PerformRelease(a, ptr, s, m0, live0, n);
    case Put(ptr, offset, value) => s' := PerformPut(a, ptr, offset, value, s, m0, live0);
    case Shrink(pad) =>
      ghost var m := a.mem;
      if a.releases {
        PagedIsLarge(a.State(), {});
        AllIsTail(a.segs);
        TailIsSafe(a.State());
      }
      var trimmed := a.Trim(pad);
      AfterOthers(m, a.mem, LiveOf(a.cs), s, m0, live0);
  }

  /** The store after a number of calls, each of which was a step. */
  ghost predicate Trace(calls: seq<Call>, states: seq<Store>, granularity: int, refused: seq<bool>) {
    && |states| == |calls| + 1 && |refused| == |calls| && states[0] == map[]
    && forall i :: 0 <= i < |calls| ==> Step(states[i], calls[i], states[i + 1], granularity, refused[i])
  }

  function Refusals(refused: seq<bool>): int {
    if refused == [] then 0
    else Refusals(refused[..|refused| - 1]) + if refused[|refused| - 1] then 1 else 0
  }

  lemma OneMore(refused: seq<bool>, more: bool)
    ensures Refusals(refused + [more]) == Refusals(refused) + if more then 1 else 0
  {
    assert (refused + [more])[..|refused|] == refused;
  }

  /**
   Any run of calls: the client's blocks hold exactly what the store says, byte for byte, the blocks that were in use
   before the run are untouched, and a call is turned down only for its size or as often as the system refuses.
   */
  method Run(a: Dlmalloc, calls: seq<Call>) returns (s: Store, ghost states: seq<Store>, ghost refused: seq<bool>)
    requires a.Valid() && a.RunSafe(|calls|)
    requires forall i :: 0 <= i < |calls| ==>
      WellFormed(calls[i], a.granularity) && (calls[i].Shrink? && a.releases ==> a.WholeRegions())
    modifies a
    ensures a.Valid() && a.granularity == old(a.granularity)
    ensures Trace(calls, states, a.granularity, refused) && states[|calls|] == s
    ensures a.denials == old(a.denials) + Refusals(refused)
    ensures Serves(a.mem, LiveOf(a.cs), s, old(a.mem), LiveOf(old(a.cs)))
  {
    hide Good, LiveOf, Serves, Untouched, LegalGranularity, Total, Paged, MaxRequest, IsPowerOfTwo, Step, Refusals,
         Outstanding, Peak;
    ghost var m0, live0 := a.mem, LiveOf(a.cs);
    s := map[];
    states, refused := [s], [];
    assert Refusals([]) == 0 by { NoRefusals(); }
    StartServing(a.State());
    var i := 0;
    while i < |calls|
      invariant 0 <= i <= |calls| && a.Valid() && a.granularity == old(a.granularity) && Layouts(s, a.granularity)
      invariant Serves(a.mem, LiveOf(a.cs), s, m0, live0) && a.RunSafe(|calls| - i)
      invariant old(a.WholeRegions()) ==> a.WholeRegions()
      invariant Trace(calls[..i], states, a.granularity, refused) && states[i] == s
      invariant a.denials == old(a.denials) + Refusals(refused)
    {
      ghost var no: bool;
      s, no := Perform(a, calls[i], s, m0, live0, |calls| - i - 1);
      OneMore(refused, no);
      states, refused := states + [s], refused + [no];
      i := i + 1;
    }
    assert calls[..i] == calls;
  }

  lemma NoRefusals()
    ensures Refusals([]) == 0
  {
  }

  lemma StartServing(h: Heap)
    requires Good(h, {})
    ensures Serves(h.m, LiveOf(h.cs), map[], h.m, LiveOf(h.cs))
  {
    hide Good, Untouched;
    UntouchedSelf(h, {});
  }
}
