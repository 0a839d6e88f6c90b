/**
 Directly mapped chunks of src/dlmalloc.c, which the port never creates: a mapping of the system that holds a single
 chunk. The chunk's `prev_foot` says how far into the mapping it starts, so that the mapping can be found again.
 */
module Mapped {
  import opened Words
  import opened SizeClasses
  import opened Memory
  import opened Tiling
  import opened Resizing

  const FOOT_PAD: int := 4 * WORD_BYTES
  /** The payload of a directly mapped chunk does not reach into the chunk behind it. */
  const MAP_OVERHEAD: int := 2 * WORD_BYTES

  /** A chunk and the mapping it lies in. */
  datatype Mapping = Mapping(chunk: int, base: int, len: int)

  function Sum(s: seq<Mapping>): int { if s == [] then 0 else s[0].len + Sum(s[1..]) }

  lemma {:induction false} SumUpdate(s: seq<Mapping>, i: int, x: Mapping)
    requires 0 <= i < |s|
    ensures Sum(s[i := x]) == Sum(s) - s[i].len + x.len
    decreases i
  {
    if i == 0 {
      assert s[0 := x][1..] == s[1..];
    } else {
      SumUpdate(s[1..], i - 1, x);
      assert s[i := x][1..] == s[1..][i - 1 := x];
    }
  }

  function Drop(s: seq<Mapping>, i: int): seq<Mapping>
    requires 0 <= i < |s|
  {
    s[..i] + s[i + 1..]
  }

  lemma {:induction false} SumDrop(s: seq<Mapping>, i: int)
    requires 0 <= i < |s|
    ensures Sum(Drop(s, i)) == Sum(s) - s[i].len
    decreases i
  {
    if i == 0 {
      assert Drop(s, 0) == s[1..];
    } else {
      SumDrop(s[1..], i - 1);
      assert Drop(s, i)[1..] == Drop(s[1..], i - 1);
    }
  }

  lemma SumAdd(s: seq<Mapping>, x: Mapping)
    ensures Sum([x] + s) == x.len + Sum(s)
  {
    assert ([x] + s)[1..] == s;
  }

  // ---------- one mapping ----------

  /** `do_check_mmapped_chunk`: the offset, the chunk and the pad behind it make up the mapping exactly. */
  ghost predicate MappedChunk(m: Mem, x: Mapping) {
    var p := x.chunk;
    && p % 16 == 0 && p in m && p + HEAD in m
    && p - m[p] == x.base && m[p] >= 0 && m[p] % 8 == 0
    && Mmapped(m[p + HEAD])
    && var size := Size(m[p + HEAD]);
    && size > 0 && m[p] + size + FOOT_PAD == x.len
    && p + size + HEAD in m && m[p + size + HEAD] == FENCEPOST_HEAD
    && p + size + HEAD + WORD_BYTES in m && m[p + size + HEAD + WORD_BYTES] == 0
    && Held(m, x.base, x.base + x.len)
  }

  ghost predicate Separate(x: Mapping, y: Mapping) { x.base + x.len <= y.base || y.base + y.len <= x.base }

  ghost predicate SameSpan(m: Mem, m': Mem, x: Mapping) {
    forall w :: x.base <= w < x.base + x.len ==> w in m && w in m' && m'[w] == m[w]
  }

  lemma MappedFrame(m: Mem, m': Mem, x: Mapping)
    requires MappedChunk(m, x) && SameSpan(m, m', x)
    ensures MappedChunk(m', x)
  {
    hide Size, Mmapped;
    var p, size := x.chunk, Size(m[x.chunk + HEAD]);
    assert size >= 8 by { SizeIsEven(m[p + HEAD]); }
    assert SameAt(m, m', p) && SameAt(m, m', p + HEAD) && SameAt(m, m', p + size + HEAD)
      && SameAt(m, m', p + size + HEAD + WORD_BYTES);
  }

  lemma SizeIsEven(head: int)
    ensures Size(head) % 8 == 0 && (Size(head) > 0 ==> Size(head) >= 8)
  {
  }

  /** `page_align(nb + SIX_SIZE_T_SIZES + CHUNK_ALIGN_MASK)` on unsigned words. */
  function MapSize(nb: int, page: int): int
    requires page > 0
  {
    var x := (nb + 6 * WORD_BYTES + (MALLOC_ALIGNMENT - 1) + (page - 1)) % WORD_LIMIT;
    x - x % page
  }

  /** The sum has not wrapped exactly when the size exceeds the request. */
  lemma MapSizeFits(nb: int, page: int)
    requires 0 <= nb < WORD_LIMIT && 16 <= page <= SIGN_BIT / 2 && page % 16 == 0
    ensures var s := MapSize(nb, page);
      && s > nb ==> s >= nb + 6 * WORD_BYTES + (MALLOC_ALIGNMENT - 1) && s % 16 == 0
    ensures MapSize(nb, page) > nb <==> nb + 6 * WORD_BYTES + (MALLOC_ALIGNMENT - 1) + (page - 1) < WORD_LIMIT
  {
    var x := nb + 6 * WORD_BYTES + (MALLOC_ALIGNMENT - 1) + (page - 1);
    if x < WORD_LIMIT {
      assert x % WORD_LIMIT == x;
      RoundDown(x, page);
    } else {
      assert x % WORD_LIMIT == x - WORD_LIMIT;
      RoundDown(x - WORD_LIMIT, page);
    }
  }

  lemma MapSizeIs(nb: int, page: int)
    requires 64 <= page < WORD_LIMIT && page % 16 == 0
    ensures var s := MapSize(nb, page); s % 16 == 0 && 0 <= s < WORD_LIMIT && (s > 0 ==> s >= 64)
  {
    var x := (nb + 6 * WORD_BYTES + (MALLOC_ALIGNMENT - 1) + (page - 1)) % WORD_LIMIT;
    assert 0 <= x < WORD_LIMIT;
    RoundDown(x, page);
    Multiple(x, page);
  }

  lemma Multiple(x: int, page: int)
    requires page > 0 && x >= 0
    ensures x - x % page == 0 || x - x % page >= page
  {
    var q := x / page;
    assert x - x % page == page * q;
    if q >= 1 {
      assert page * q >= page;
    }
  }

  lemma RoundDown(x: int, page: int)
    requires page > 0 && page % 16 == 0 && x >= 0
    ensures x - page < x - x % page <= x && (x - x % page) % 16 == 0
  {
    var k := page / 16;
    assert x - x % page == page * (x / page);
    assert page * (x / page) == 16 * (k * (x / page));
  }

  // ---------- the writes ----------

  /** An address `n` bytes behind `a`, which may wrap around. */
  function Behind(a: int, n: int): int { (a + n) % WORD_LIMIT }

  /** The head of a directly mapped chunk and the fencepost heads behind it. */
  function ChunkWrites(m: Mem, p: int, psize: int): Mem {
    m[p + HEAD := psize]
     [Behind(p, psize) + HEAD := FENCEPOST_HEAD]
     [Behind(p, psize + WORD_BYTES) + HEAD := 0]
  }

  /**
   `size_t` arithmetic places a chunk `offset` bytes into a mapping of `len` bytes. It lies in the mapping exactly when
   the offset and the pad leave room for it; a larger offset makes the size wrap around.
   */
  lemma ChunkInMapping(m: Mem, p: int, base: int, offset: int, len: int)
    requires p == base + offset && p % 16 == 0 && p in m && m[p] == offset && offset >= 0 && offset % 8 == 0
    requires 0 <= base && base + len < WORD_LIMIT && Held(m, base, base + len)
    requires FOOT_PAD <= len && len % 8 == 0 && offset + FOOT_PAD < WORD_LIMIT
    ensures var psize := Minus(len, offset + FOOT_PAD);
      MappedChunk(ChunkWrites(m, p, psize), Mapping(p, base, len)) <==> offset + FOOT_PAD < len
  {
    var psize := Minus(len, offset + FOOT_PAD);
    if offset + FOOT_PAD < len {
      FenceSpots(p, base, offset, len);
      MinusWraps(len, offset + FOOT_PAD);
      PlainSize(psize);
      hide Size, Mmapped, Behind, Minus;
      assert ChunkWrites(m, p, psize)[p] == offset;
    } else {
      PastTheEnd(m, p, base, offset, len);
    }
  }

  /** Without room in the mapping, whatever lies where the chunk is written, it is not a chunk of the mapping. */
  lemma PastTheEnd(m: Mem, p: int, base: int, offset: int, len: int)
    requires p == base + offset && 0 <= base && base + len < WORD_LIMIT && FOOT_PAD <= len && len % 8 == 0
    requires 0 <= offset && offset % 8 == 0 && len <= offset + FOOT_PAD < WORD_LIMIT
    ensures !MappedChunk(ChunkWrites(m, p, Minus(len, offset + FOOT_PAD)), Mapping(p, base, len))
  {
    hide Minus, MappedChunk, Behind, Size, Mmapped;
    var psize, e := Minus(len, offset + FOOT_PAD), base + len - FOOT_PAD;
    FenceSpots(p, base, offset, len);
    MinusWraps(len, offset + FOOT_PAD);
    assert psize % 8 == 0 && psize >= 0 && (psize > len || offset + FOOT_PAD == len);
    PlainSize(psize);
    var m' := ChunkWrites(m, p, psize);
    NoChunk(m', Mapping(p, base, len), if p == e then FENCEPOST_HEAD else if p == e + WORD_BYTES then 0 else psize);
  }

  /** A head that is a fencepost, or zero, or too large for the mapping. */
  lemma NoChunk(m: Mem, x: Mapping, head: int)
    requires x.chunk + HEAD in m && m[x.chunk + HEAD] == head
    requires head == FENCEPOST_HEAD || head == 0 || (Size(head) == head && head > x.len)
    ensures !MappedChunk(m, x)
  {
    hide Size, Mmapped, Held;
    FenceIsUsed();
    PlainSize(0);
  }

  lemma FenceIsUsed()
    ensures !Mmapped(FENCEPOST_HEAD)
  {
  }

  /** The fencepost heads always go to the end of the mapping. */
  lemma FenceSpots(p: int, base: int, offset: int, len: int)
    requires p == base + offset && 0 <= base && base + len < WORD_LIMIT && FOOT_PAD <= len
    requires 0 <= offset && offset + FOOT_PAD < WORD_LIMIT
    ensures Behind(p, Minus(len, offset + FOOT_PAD)) == base + len - FOOT_PAD
    ensures Behind(p, Minus(len, offset + FOOT_PAD) + WORD_BYTES) == base + len - FOOT_PAD + WORD_BYTES
  {
    hide Minus;
    MinusWraps(len, offset + FOOT_PAD);
    SmallRest(base + len - FOOT_PAD);
    SmallRest(base + len - FOOT_PAD + WORD_BYTES);
  }

  lemma SmallRest(x: int)
    requires 0 <= x < WORD_LIMIT
    ensures x % WORD_LIMIT == x && (x + WORD_LIMIT) % WORD_LIMIT == x
  {
  }

  lemma PlainSize(psize: int)
    requires psize >= 0 && psize % 8 == 0
    ensures Size(psize) == psize && Mmapped(psize)
  {
  }

  // ---------- all mappings ----------

  ghost predicate Placed(x: Mapping) { HEAP_START <= x.base && x.base + x.len < WORD_LIMIT && x.len % 8 == 0 }

  ghost predicate AllMapped(m: Mem, maps: seq<Mapping>) {
    && (forall i :: 0 <= i < |maps| ==> MappedChunk(m, maps[i]) && Placed(maps[i]))
    && (forall i, j :: 0 <= i < j < |maps| ==> Separate(maps[i], maps[j]))
  }

  lemma MappedAt(m: Mem, maps: seq<Mapping>, i: int)
    requires AllMapped(m, maps) && 0 <= i < |maps|
    ensures MappedChunk(m, maps[i]) && Placed(maps[i])
  {
  }

  lemma Apart(m: Mem, maps: seq<Mapping>, i: int, j: int)
    requires AllMapped(m, maps) && 0 <= i < |maps| && 0 <= j < |maps| && i != j
    ensures Separate(maps[i], maps[j])
  {
    if i < j {
      assert Separate(maps[i], maps[j]);
    } else {
      assert Separate(maps[j], maps[i]);
    }
  }

  lemma AddMapping(m: Mem, m': Mem, maps: seq<Mapping>, x: Mapping)
    requires AllMapped(m, maps) && MappedChunk(m', x) && Placed(x)
    requires forall i :: 0 <= i < |maps| ==> SameSpan(m, m', maps[i]) && Separate(x, maps[i])
    ensures AllMapped(m', [x] + maps)
  {
    hide MappedChunk, Placed, Separate;
    var maps' := [x] + maps;
    forall i | 0 <= i < |maps'|
      ensures MappedChunk(m', maps'[i]) && Placed(maps'[i])
    {
      if i > 0 {
        MappedFrame(m, m', maps[i - 1]);
      }
    }
  }

  lemma ReplaceMapping(m: Mem, m': Mem, maps: seq<Mapping>, i: int, x: Mapping)
    requires AllMapped(m, maps) && 0 <= i < |maps| && MappedChunk(m', x) && Placed(x)
    requires forall j :: 0 <= j < |maps| && j != i ==> SameSpan(m, m', maps[j]) && Separate(x, maps[j])
    ensures AllMapped(m', maps[i := x])
  {
    hide MappedChunk, Placed;
    var maps' := maps[i := x];
    forall j | 0 <= j < |maps'|
      ensures MappedChunk(m', maps'[j]) && Placed(maps'[j])
    {
      if j != i {
        MappedFrame(m, m', maps[j]);
      }
    }
  }

  lemma DropMapping(m: Mem, m': Mem, maps: seq<Mapping>, i: int)
    requires AllMapped(m, maps) && 0 <= i < |maps|
    requires forall j :: 0 <= j < |maps| && j != i ==> SameSpan(m, m', maps[j])
    ensures AllMapped(m', Drop(maps, i))
  {
    hide MappedChunk, Placed, Separate;
    var maps' := Drop(maps, i);
    forall j | 0 <= j < |maps'|
      ensures MappedChunk(m', maps'[j]) && Placed(maps'[j])
    {
      MappedFrame(m, m', maps[if j < i then j else j + 1]);
    }
  }

  /** What the code reads off a chunk leads back to the mapping. */
  lemma ChunkReads(m: Mem, x: Mapping)
    requires MappedChunk(m, x)
    ensures var p := x.chunk;
      && p in m && p + HEAD in m && m[p] == p - x.base && m[p] >= 0 && m[p] % 8 == 0 && p % 16 == 0
      && Size(m[p + HEAD]) + m[p] + FOOT_PAD == x.len && Size(m[p + HEAD]) >= 8 && Size(m[p + HEAD]) % 8 == 0
      && Held(m, x.base, x.base + x.len)
  {
    SizeIsEven(m[x.chunk + HEAD]);
  }

  lemma ChunkIs(m: Mem, x: Mapping)
    requires MappedChunk(m, x)
    ensures var p := x.chunk;
      && p in m && p + HEAD in m && m[p] == p - x.base >= 0 && Size(m[p + HEAD]) + m[p] + FOOT_PAD == x.len
      && x.len > 0 && Held(m, x.base, x.base + x.len)
  {
    hide Size, Mmapped;
  }

  /** Moving the chunk up inside its mapping: what the offset gains the size loses. */
  lemma MovedUp(m: Mem, m': Mem, x: Mapping, newp: int)
    requires MappedChunk(m, x) && Placed(x)
    requires var lead := newp - x.chunk; lead % 16 == 0 && MIN_CHUNK_SIZE <= lead < Size(m[x.chunk + HEAD])
    requires var lead := newp - x.chunk;
      m' == m[newp := m[x.chunk] + lead][newp + HEAD := Size(m[x.chunk + HEAD]) - lead]
    ensures MappedChunk(m', x.(chunk := newp)) && m'.Keys == m.Keys
    ensures newp + HEAD in m' && Size(m'[newp + HEAD]) == Size(m[x.chunk + HEAD]) - (newp - x.chunk)
  {
    hide Size, Mmapped;
    ChunkReads(m, x);
    PlainSize(Size(m[x.chunk + HEAD]) - (newp - x.chunk));
  }

  lemma OthersKept(m: Mem, m': Mem, maps: seq<Mapping>, i: int, j: int)
    requires AllMapped(m, maps) && 0 <= i < |maps| && 0 <= j < |maps| && j != i && m'.Keys == m.Keys
    requires forall w :: w in m && !(maps[i].base <= w < maps[i].base + maps[i].len) ==> m'[w] == m[w]
    ensures SameSpan(m, m', maps[j]) && Separate(maps[i], maps[j])
  {
    MappedAt(m, maps, j);
    Apart(m, maps, i, j);
  }

  lemma OthersRemain(m: Mem, m': Mem, maps: seq<Mapping>, i: int, j: int)
    requires AllMapped(m, maps) && 0 <= i < |maps| && 0 <= j < |maps| && j != i && Unmapped(m, m', maps[i])
    ensures SameSpan(m, m', maps[j])
  {
    MappedAt(m, maps, j);
    Apart(m, maps, i, j);
  }

  /** Where `internal_memalign` of src/dlmalloc.c moves a chunk, which accepts a leader of exactly a minimum chunk. */
  function MappedPosition(p: int, alignment: int): int
    requires alignment > 0
  {
    var br := AlignUp(p + MEM_OFFSET, alignment) - MEM_OFFSET;
    if br - p >= MIN_CHUNK_SIZE then br else br + alignment
  }

  lemma MappedSpot(p: int, alignment: int, nb: int, size: int)
    requires alignment >= MIN_CHUNK_SIZE && alignment % 16 == 0 && p % 16 == 0 && !AlignedTo(p + MEM_OFFSET, alignment)
    requires size >= Request2Size(nb + alignment + MIN_CHUNK_SIZE - CHUNK_OVERHEAD) + MAP_OVERHEAD
    requires nb >= MIN_CHUNK_SIZE
    ensures var pos := MappedPosition(p, alignment); var lead := pos - p;
      && AlignedTo(pos + MEM_OFFSET, alignment) && lead % 16 == 0
      && MIN_CHUNK_SIZE <= lead < alignment + MIN_CHUNK_SIZE && size - lead >= nb + MAP_OVERHEAD
  {
    hide AlignUp, Request2Size, PadRequest, AlignedTo;
    var up := AlignUp(p + MEM_OFFSET, alignment);
    UpIsAligned(p + MEM_OFFSET, alignment);
    MultipleOfMultiple(up, alignment);
    NextAligned(up, alignment);
    SpotUnits(p / 16, up / 16, alignment / 16);
    RequestFits(nb + alignment + MIN_CHUNK_SIZE - CHUNK_OVERHEAD);
  }

  lemma SpotUnits(a: int, b: int, c: int)
    requires c >= 2 && a + 1 < b < a + 1 + c
    ensures var br := 16 * b - 16; var pos := if br - 16 * a >= MIN_CHUNK_SIZE then br else br + 16 * c;
      (pos - 16 * a) % 16 == 0 && MIN_CHUNK_SIZE <= pos - 16 * a < 16 * c + MIN_CHUNK_SIZE
  {
  }

  /** The payload of a directly mapped chunk of `size` bytes. */
  ghost predicate SameContents(m: Mem, m': Mem, p: int, p': int, size: int) {
    forall w :: p + MEM_OFFSET <= w < p + size ==> w in m && w - p + p' in m' && m'[w - p + p'] == m[w]
  }

  // ---------- what the system does ----------

  /** A region of `len` bytes with arbitrary contents has arrived. */
  ghost predicate Arrived(m: Mem, m': Mem, base: int, len: int) {
    && HEAP_START <= base && base % 8 == 0 && base + len < WORD_LIMIT
    && (forall w :: w in m' <==> w in m || base <= w < base + len)
    && (forall w :: w in m ==> !(base <= w < base + len) && m'[w] == m[w])
  }

  /** A mapping has been resized and perhaps moved, with its contents. */
  ghost predicate Remapped(m: Mem, m': Mem, base: int, len: int, base': int, len': int) {
    && HEAP_START <= base' && base' % 16 == base % 16 && base' + len' < WORD_LIMIT
    && (forall w :: w in m' <==> (w in m && !(base <= w < base + len)) || base' <= w < base' + len')
    && (forall w :: w in m && !(base <= w < base + len) ==> !(base' <= w < base' + len') && m'[w] == m[w])
    && (forall w :: base <= w < base + len && w < base + len' ==> w in m && m'[w - base + base'] == m[w])
  }

  /** Exactly this mapping is gone. */
  ghost predicate Unmapped(m: Mem, m': Mem, x: Mapping) {
    && (forall w :: w in m' <==> w in m && !(x.base <= w < x.base + x.len))
    && (forall w :: w in m' ==> m'[w] == m[w])
  }

  lemma ArrivedApart(m: Mem, m': Mem, maps: seq<Mapping>, base: int, len: int)
    requires AllMapped(m, maps) && Arrived(m, m', base, len) && len > 0
    ensures forall i :: 0 <= i < |maps| ==> Separate(Mapping(0, base, len), maps[i]) && SameSpan(m, m', maps[i])
  {
    forall i | 0 <= i < |maps|
      ensures Separate(Mapping(0, base, len), maps[i]) && SameSpan(m, m', maps[i])
    {
      MappedAt(m, maps, i);
      hide AllMapped, Size, Mmapped;
      var y := maps[i];
      assert y.len > 0 by { SizeIsEven(m[y.chunk + HEAD]); }
      assert base in m' && y.base in m;
      assert base !in m;
    }
  }

  /**
   `mmap_resize` has moved mapping `i`, whose chunk is now `newp`, and given it `len` bytes. The chunk lies in the
   mapping exactly when its offset and the pad leave room for it; then its contents and all other mappings are intact.
   */
  ghost predicate MappingResized(m: Mem, m': Mem, maps: seq<Mapping>, maps': seq<Mapping>, i: int, newp: int,
                                 len: int) {
    && 0 <= i < |maps|
    && var x := maps[i];
    && var offset := x.chunk - x.base;
    && var y := Mapping(newp, newp - offset, len);
    && (offset + FOOT_PAD < len <==> MappedChunk(m', y))
    && (offset + FOOT_PAD < len ==>
          && AllMapped(m', maps') && maps' == maps[i := y]
          && x.chunk + HEAD in m && newp + HEAD in m'
          && SameContents(m, m', x.chunk, newp, Min(Size(m[x.chunk + HEAD]), Size(m'[newp + HEAD]))))
  }

  /** A chunk has been set up in a resized mapping, at the offset it had in the old one. */
  lemma Resettled(m: Mem, m1: Mem, m2: Mem, maps: seq<Mapping>, i: int, y: Mapping, offset: int, nb: int, page: int)
    requires AllMapped(m, maps) && 0 <= i < |maps| && Remapped(m, m1, maps[i].base, maps[i].len, y.base, y.len)
    requires 64 <= page < WORD_LIMIT && page % 16 == 0 && y.len == MapSize(nb, page) && y.len > 0
    requires offset == maps[i].chunk - maps[i].base && y.chunk == y.base + offset
    requires m2 == ChunkWrites(m1, y.chunk, Minus(y.len, offset + FOOT_PAD))
    ensures MappingResized(m, m2, maps, if offset + FOOT_PAD < y.len then maps[i := y] else maps, i, y.chunk, y.len)
  {
    hide AllMapped, MappedChunk, ChunkWrites, Sum, Size, Mmapped, Minus, SameContents, MapSize, Held, SameSpan,
         Remapped, Separate, Placed;
    var x := maps[i];
    MapSizeIs(nb, page);
    MappedAt(m, maps, i);
    ChunkReads(m, x);
    RemappedPlace(m, m1, x, y);
    if offset + FOOT_PAD < y.len {
      OffsetKept(m, m1, x, y);
      SetUp(m1, y.chunk, y.base, offset, y.len);
      ContentsKept(m, m1, m2, x, y);
      RemappedApart(m, m1, maps, i, y.base, y.len);
      forall j | 0 <= j < |maps| && j != i
        ensures SameSpan(m, m2, maps[j]) && Separate(y, maps[j])
      {
        Follow(m, m1, m2, maps[j], y);
      }
      ReplaceMapping(m, m2, maps, i, y);
    } else {
      PastTheEnd(m1, y.chunk, y.base, offset, y.len);
    }
    assert Mapping(y.chunk, y.chunk - offset, y.len) == y;
  }

  lemma MappingResizedAll(m: Mem, m': Mem, maps: seq<Mapping>, maps': seq<Mapping>, i: int, newp: int, len: int)
    requires MappingResized(m, m', maps, maps', i, newp, len) && maps[i].chunk - maps[i].base + FOOT_PAD < len
    ensures AllMapped(m', maps')
  {
    hide AllMapped, MappedChunk, SameContents, Size;
  }

  lemma RemappedPlace(m: Mem, m': Mem, x: Mapping, y: Mapping)
    requires Remapped(m, m', x.base, x.len, y.base, y.len) && y.len % 8 == 0
    ensures Placed(y) && 0 <= y.base && y.base + y.len < WORD_LIMIT
  {
  }

  lemma Follow(m: Mem, m1: Mem, m2: Mem, x: Mapping, y: Mapping)
    requires SameSpan(m, m1, x) && Separate(Mapping(0, y.base, y.len), x) && m2.Keys == m1.Keys
    requires forall w :: w in m1 && !(y.base <= w < y.base + y.len) ==> m2[w] == m1[w]
    ensures SameSpan(m, m2, x) && Separate(y, x)
  {
  }

  lemma OffsetKept(m: Mem, m': Mem, x: Mapping, y: Mapping)
    requires MappedChunk(m, x) && Remapped(m, m', x.base, x.len, y.base, y.len)
    requires y.chunk - y.base == x.chunk - x.base && x.chunk - x.base + FOOT_PAD < y.len
    ensures var offset := x.chunk - x.base;
      && y.chunk in m' && m'[y.chunk] == offset && m'[y.chunk := offset] == m' && y.chunk % 16 == 0
      && Held(m', y.base, y.base + y.len)
  {
    hide Size, Mmapped, MappedChunk;
    ChunkReads(m, x);
    SameRest(x.base, y.base, x.chunk - x.base);
    assert x.chunk - x.base + y.base == y.chunk;
    assert m'[y.chunk] == m[x.chunk];
  }

  lemma SameRest(a: int, b: int, k: int)
    requires a % 16 == b % 16
    ensures (a + k) % 16 == (b + k) % 16
  {
    var x, y := a / 16, b / 16;
    assert a + k - (b + k) == 16 * (x - y);
  }

  lemma ContentsKept(m: Mem, m1: Mem, m2: Mem, x: Mapping, y: Mapping)
    requires MappedChunk(m, x) && Remapped(m, m1, x.base, x.len, y.base, y.len) && m2.Keys == m1.Keys
    requires x.chunk + HEAD in m && y.chunk - y.base == x.chunk - x.base && x.chunk - x.base + FOOT_PAD < y.len
    requires forall w :: y.chunk + MEM_OFFSET <= w < y.base + y.len - FOOT_PAD ==> m2[w] == m1[w]
    ensures SameContents(m, m2, x.chunk, y.chunk, Min(Size(m[x.chunk + HEAD]), y.len - (x.chunk - x.base) - FOOT_PAD))
  {
    hide Size, Mmapped, MappedChunk;
    ChunkReads(m, x);
    forall w | x.chunk + MEM_OFFSET <= w < x.chunk + Min(Size(m[x.chunk + HEAD]), y.len - (x.chunk - x.base) - FOOT_PAD)
      ensures w in m && w - x.chunk + y.chunk in m2 && m2[w - x.chunk + y.chunk] == m[w]
    {
      assert w - x.base + y.base == w - x.chunk + y.chunk;
      assert w in m && m1[w - x.base + y.base] == m[w];
    }
  }

  lemma RemappedApart(m: Mem, m': Mem, maps: seq<Mapping>, i: int, base': int, len': int)
    requires AllMapped(m, maps) && 0 <= i < |maps|
    requires Remapped(m, m', maps[i].base, maps[i].len, base', len') && len' > 0
    ensures forall j :: 0 <= j < |maps| && j != i ==>
      Separate(Mapping(0, base', len'), maps[j]) && SameSpan(m, m', maps[j])
  {
    forall j | 0 <= j < |maps| && j != i
      ensures Separate(Mapping(0, base', len'), maps[j]) && SameSpan(m, m', maps[j])
    {
      MappedAt(m, maps, j);
      Apart(m, maps, i, j);
      hide AllMapped, Size, Mmapped;
      var y := maps[j];
      assert y.len > 0 by { SizeIsEven(m[y.chunk + HEAD]); }
      assert y.base in m;
      assert base' in m';
    }
  }

  /** A call to the system about a mapping, with the answer: null, or where the mapping is; or whether it is gone. */
  datatype MapCall =
    | MapAsked(len: int, newbase: int)
    | MoveAsked(base: int, len: int, newlen: int, newbase: int)
    | UnmapAsked(base: int, len: int, taken: bool)

  /** The limit of `mallopt` forbids `more` bytes; the sum may wrap. */
  predicate OverLimit(footprint: int, more: int, limit: int) {
    limit != 0 && ((footprint + more) % WORD_LIMIT <= footprint || (footprint + more) % WORD_LIMIT > limit)
  }

  /** The directly mapped part of a `malloc_state`. */
  class DirectMaps {
    var mem: Mem
    var footprint: int
    var maxFootprint: int
    /** The limit of `mallopt`; zero for none. */
    var footprintLimit: int
    var page: int
    var granularity: int

    ghost var maps: seq<Mapping>
    ghost var calls: seq<MapCall>
    /** The part of the footprint that is not directly mapped. */
    ghost var inSegments: nat

    ghost predicate Valid()
      reads this
    {
      && AllMapped(mem, maps)
      && footprint == inSegments + Sum(maps) && footprint <= maxFootprint
      && 64 <= page <= SIGN_BIT / 2 && page % 16 == 0
    }

    method SystemMap(len: int) returns (mm: int)
      requires len > 0
      modifies `mem, `calls
      ensures calls == old(calls) + [MapAsked(len, mm)]
      ensures mm == 0 ==> mem == old(mem)
      ensures mm != 0 ==> Arrived(old(mem), mem, mm, len)
    {
      var supplied: map<int, int> := *;
      mm := *;
      if
        && HEAP_START <= mm && mm % 8 == 0 && mm + len < WORD_LIMIT
        && supplied.Keys == (set w | mm <= w < mm + len && InMap(mm, len, w)) && supplied.Keys !! mem.Keys
      {
        mem := mem + supplied;
      } else {
        mm := 0;
      }
      calls := calls + [MapAsked(len, mm)];
    }

    method SystemRemap(base: int, len: int, len': int) returns (cp: int)
      requires len > 0 && Held(mem, base, base + len)
      modifies `mem, `calls
      ensures calls == old(calls) + [MoveAsked(base, len, len', cp)]
      ensures cp == 0 ==> mem == old(mem)
      ensures cp != 0 ==> Remapped(old(mem), mem, base, len, cp, len') && len' > 0 && cp > 0
    {
      var supplied: map<int, int> := *;
      cp := *;
      if
        && len' > 0 && HEAP_START <= cp && cp % 16 == base % 16 && cp + len' < WORD_LIMIT
        && supplied.Keys == (set w | cp <= w < cp + len' && InMap(cp, len', w))
        && (forall w :: w in mem && !InMap(base, len, w) ==> w !in supplied)
      {
        RelocatedIs(mem, base, len, cp, len', supplied);
        mem := Relocated(mem, base, len, cp, supplied);
      } else {
        cp := 0;
      }
      calls := calls + [MoveAsked(base, len, len', cp)];
    }

    method SystemUnmap(base: int, len: int) returns (ok: bool)
      requires Held(mem, base, base + len)
      modifies `mem, `calls
      ensures calls == old(calls) + [UnmapAsked(base, len, ok)]
      ensures ok ==> Unmapped(old(mem), mem, Mapping(0, base, len))
      ensures !ok ==> mem == old(mem)
    {
      ok := *;
      if ok {
        mem := map w | w in mem && !(base <= w < base + len) :: mem[w];
      }
      calls := calls + [UnmapAsked(base, len, ok)];
    }

    /** The size of the chunk at `p`. */
    function ChunkSize(p: int): int
      reads `mem
    {
      if p + HEAD in mem then Size(mem[p + HEAD]) else 0
    }

    /** `mmap_alloc`, src/dlmalloc.c:3821-3850 */
    method MmapAlloc(nb: int) returns (r: int)
      requires Valid() && 0 <= nb < WORD_LIMIT
      modifies `mem, `footprint, `maxFootprint, `maps, `calls
      ensures Valid()
      ensures r == 0 ==> mem == old(mem) && maps == old(maps) && footprint == old(footprint)
      ensures r != 0 ==>
        && |maps| == |old(maps)| + 1 && maps[1..] == old(maps) && maps[0].chunk == r - MEM_OFFSET
        && maps[0].len == MapSize(nb, page) > nb && footprint == old(footprint) + maps[0].len
        && ChunkSize(r - MEM_OFFSET) >= nb + MAP_OVERHEAD
        && forall w :: w in old(mem) ==> w in mem && mem[w] == old(mem)[w]
      ensures maxFootprint == if footprint > old(maxFootprint) then footprint else old(maxFootprint)
      ensures
        if OverLimit(old(footprint), MapSize(nb, page), footprintLimit) || MapSize(nb, page) <= nb
        then r == 0 && calls == old(calls)
        else calls == old(calls) + [MapAsked(MapSize(nb, page), if r == 0 then 0 else maps[0].base)]
    {
      hide AllMapped, MappedChunk, MapSize, ChunkWrites, Sum, Size, Mmapped, Minus, AlignOffset;
      var mmsize := MapSize(nb, page);
      MapSizeFits(nb, page);
      if footprintLimit != 0 {
        var fp := (footprint + mmsize) % WORD_LIMIT;
        if fp <= footprint || fp > footprintLimit {
          return 0;
        }
      }
      r := 0;
      if mmsize > nb {
        var mm := SystemMap(mmsize);
        if mm != 0 {
          ghost var m1 := mem;
          ArrivedApart(old(mem), m1, maps, mm, mmsize);
          var offset := AlignOffset(mm + MEM_OFFSET);
          OffsetIs(mm);
          var psize := Minus(mmsize, offset + FOOT_PAD);
          var p := mm + offset;
          mem := mem[p := offset];
          mem := ChunkWrites(mem, p, psize);
          ghost var x := Mapping(p, mm, mmsize);
          SetUp(m1, p, mm, offset, mmsize);
          AddMapping(old(mem), mem, maps, x);
          SumAdd(maps, x);
          maps := [x] + maps;
          footprint := footprint + mmsize;
          maxFootprint := if footprint > maxFootprint then footprint else maxFootprint;
          r := p + MEM_OFFSET;
        }
      }
    }

    /**
     `mmap_resize`, src/dlmalloc.c:3853-3885, on the mapping `i`. When the offset of the chunk and the pad do not fit
     into the new mapping, the chunk is not inside it; see `ChunkInMapping`.
     */
    method MmapResize(oldp: int, nb: int, ghost i: int) returns (newp: int)
      requires Valid() && 0 <= i < |maps| && maps[i].chunk == oldp && 0 <= nb < WORD_LIMIT - 2 * WORD_BYTES
      modifies `mem, `footprint, `maxFootprint, `maps, `calls
      ensures newp == 0 || KeepsMapping(old(ChunkSize(oldp)), nb, granularity) ==>
        Valid() && mem == old(mem) && maps == old(maps) && footprint == old(footprint)
      ensures IsSmall(nb) ==> newp == 0
      ensures !IsSmall(nb) && KeepsMapping(old(ChunkSize(oldp)), nb, granularity) ==> newp == oldp
      ensures newp != 0 && !KeepsMapping(old(ChunkSize(oldp)), nb, granularity) ==>
        && MappingResized(old(mem), mem, old(maps), maps, i, newp, MapSize(nb, page))
        && footprint == old(footprint) - old(maps[i]).len + MapSize(nb, page)
        && (oldp - old(maps[i]).base + FOOT_PAD < MapSize(nb, page) ==> Valid())
      ensures maxFootprint == if footprint > old(maxFootprint) then footprint else old(maxFootprint)
      ensures if IsSmall(nb) || KeepsMapping(old(ChunkSize(oldp)), nb, granularity) then calls == old(calls)
        else calls == old(calls) + [MoveAsked(old(maps[i]).base, old(maps[i]).len, MapSize(nb, page),
                                              if newp == 0 then 0 else newp - (oldp - old(maps[i]).base))]
    {
      hide AllMapped, MappedChunk, MapSize, Sum, Size, MappingResized, IsSmall;
      assert oldp + HEAD in mem by { MappedAt(mem, maps, i); ChunkReads(mem, maps[i]); }
      var oldsize := Size(mem[oldp + HEAD]);
      newp := 0;
      if IsSmall(nb) {
        return;
      }
      if oldsize >= nb + WORD_BYTES && oldsize - nb <= 2 * granularity {
        newp := oldp;
      } else {
        newp := Remap(oldp, nb, oldsize, i);
      }
    }

    /** The second half of `mmap_resize`. */
    method Remap(oldp: int, nb: int, oldsize: int, ghost i: int) returns (newp: int)
      requires Valid() && 0 <= i < |maps| && maps[i].chunk == oldp && oldsize == ChunkSize(oldp)
      modifies `mem, `footprint, `maxFootprint, `maps, `calls
      ensures newp == 0 ==> Valid() && mem == old(mem) && maps == old(maps) && footprint == old(footprint)
      ensures newp != 0 ==>
        && MappingResized(old(mem), mem, old(maps), maps, i, newp, MapSize(nb, page))
        && footprint == old(footprint) - old(maps[i]).len + MapSize(nb, page)
        && (oldp - old(maps[i]).base + FOOT_PAD < MapSize(nb, page) ==> Valid())
      ensures maxFootprint == if footprint > old(maxFootprint) then footprint else old(maxFootprint)
      ensures calls == old(calls) + [MoveAsked(old(maps[i]).base, old(maps[i]).len, MapSize(nb, page),
                                               if newp == 0 then 0 else newp - (oldp - old(maps[i]).base))]
    {
      hide AllMapped, MappedChunk, MapSize, ChunkWrites, Sum, Size, Mmapped, Minus, Remapped, MappingResized, Held,
           Placed;
      ghost var x := maps[i];
      MappedAt(mem, maps, i);
      ChunkIs(mem, x);
      var offset := mem[oldp];
      var oldmmsize := oldsize + offset + FOOT_PAD;
      var newmmsize := MapSize(nb, page);
      assert oldp - offset == x.base && oldmmsize == x.len && offset == x.chunk - x.base;
      var cp := SystemRemap(oldp - offset, oldmmsize, newmmsize);
      if cp == 0 {
        return 0;
      }
      newp := SettleMapping(cp, offset, oldmmsize, newmmsize, nb, i, old(mem));
    }

    /** The end of `mmap_resize`: the head and the fenceposts of the chunk in its moved mapping at `cp`. */
    method SettleMapping(cp: int, offset: int, oldmmsize: int, newmmsize: int, ghost nb: int, ghost i: int,
                         ghost m0: Mem)
      returns (newp: int)
      requires AllMapped(m0, maps) && 0 <= i < |maps| && Remapped(m0, mem, maps[i].base, maps[i].len, cp, newmmsize)
      requires 64 <= page <= SIGN_BIT / 2 && page % 16 == 0 && newmmsize == MapSize(nb, page) && newmmsize > 0 && cp > 0
      requires offset == maps[i].chunk - maps[i].base >= 0 && oldmmsize == maps[i].len
      requires footprint == inSegments + Sum(maps) && footprint <= maxFootprint
      modifies `mem, `footprint, `maxFootprint, `maps
      ensures newp == cp + offset && MappingResized(m0, mem, old(maps), maps, i, newp, newmmsize)
      ensures footprint == old(footprint) - oldmmsize + newmmsize && (offset + FOOT_PAD < newmmsize ==> Valid())
      ensures maxFootprint == if footprint > old(maxFootprint) then footprint else old(maxFootprint)
    {
      hide AllMapped, MappedChunk, MapSize, ChunkWrites, Sum, Size, Mmapped, Minus, Remapped, MappingResized;
      ghost var m1 := mem;
      newp := cp + offset;
      ghost var y := Mapping(newp, cp, newmmsize);
      var psize := Minus(newmmsize, offset + FOOT_PAD);
      mem := ChunkWrites(mem, newp, psize);
      footprint := footprint + (newmmsize - oldmmsize);
      maxFootprint := if footprint > maxFootprint then footprint else maxFootprint;
      Resettled(m0, m1, mem, maps, i, y, offset, nb, page);
      if offset + FOOT_PAD < newmmsize {
        MappingResizedAll(m0, mem, maps, maps[i := y], i, newp, newmmsize);
        SumUpdate(maps, i, y);
        maps := maps[i := y];
      }
    }

    /** The branch of `internal_memalign` for a directly mapped chunk, src/dlmalloc.c:4916-4928. */
    method AlignMapped(p: int, alignment: int, nb: int, ghost i: int) returns (newp: int)
      requires Valid() && 0 <= i < |maps| && maps[i].chunk == p
      requires alignment >= MIN_CHUNK_SIZE && alignment % 16 == 0 && !AlignedTo(p + MEM_OFFSET, alignment)
      requires nb >= MIN_CHUNK_SIZE && nb % 16 == 0
      requires ChunkSize(p) >= Request2Size(nb + alignment + MIN_CHUNK_SIZE - CHUNK_OVERHEAD) + MAP_OVERHEAD
      modifies `mem, `maps
      ensures Valid() && footprint == old(footprint) && AlignedTo(newp + MEM_OFFSET, alignment)
      ensures maps == old(maps)[i := old(maps[i]).(chunk := newp)]
      ensures ChunkSize(newp) >= nb + MAP_OVERHEAD
      ensures mem.Keys == old(mem).Keys && forall w :: w in mem && w != newp && w != newp + HEAD ==>
        mem[w] == old(mem)[w]
    {
      hide AllMapped, MappedChunk, Sum, Size, Mmapped, AlignedTo, Request2Size, AlignUp;
      ghost var x := maps[i];
      MappedAt(mem, maps, i);
      ChunkReads(mem, x);
      MappedSpot(p, alignment, nb, Size(mem[p + HEAD]));
      var br := AlignUp(p + MEM_OFFSET, alignment) - MEM_OFFSET;
      var pos := if br - p >= MIN_CHUNK_SIZE then br else br + alignment;
      newp := pos;
      var leadsize := pos - p;
      var newsize := Size(mem[p + HEAD]) - leadsize;
      ghost var m0 := mem;
      assert Held(mem, x.base, x.base + x.len);
      mem := mem[newp := mem[p] + leadsize];
      mem := mem[newp + HEAD := newsize];
      ghost var y := x.(chunk := newp);
      MovedUp(m0, mem, x, newp);
      forall j | 0 <= j < |maps| && j != i
        ensures SameSpan(m0, mem, maps[j]) && Separate(y, maps[j])
      {
        OthersKept(m0, mem, maps, i, j);
      }
      ReplaceMapping(m0, mem, maps, i, y);
      SumUpdate(maps, i, y);
      maps := maps[i := y];
    }

    /** `dlfree` of a directly mapped chunk, src/dlmalloc.c:4700-4707. */
    method FreeMapped(p: int, ghost i: int)
      requires Valid() && 0 <= i < |maps| && maps[i].chunk == p
      modifies `mem, `footprint, `maps, `calls
      ensures Valid() && |calls| == |old(calls)| + 1
      ensures var taken := calls[|old(calls)|] == UnmapAsked(old(maps[i]).base, old(maps[i]).len, true);
        && calls == old(calls) + [UnmapAsked(old(maps[i]).base, old(maps[i]).len, taken)]
        && if taken then
             && Unmapped(old(mem), mem, old(maps[i])) && maps == Drop(old(maps), i)
             && footprint == old(footprint) - old(maps[i]).len
           else mem == old(mem) && maps == old(maps) && footprint == old(footprint)
    {
      hide AllMapped, MappedChunk, Sum, Size, Mmapped;
      ghost var m0, x := mem, maps[i];
      MappedAt(mem, maps, i);
      ChunkReads(mem, x);
      var psize := Size(mem[p + HEAD]);
      var prevsize := mem[p];
      psize := psize + prevsize + FOOT_PAD;
      var ok := SystemUnmap(p - prevsize, psize);
      if ok {
        footprint := footprint - psize;
        forall j | 0 <= j < |maps| && j != i
          ensures SameSpan(m0, mem, maps[j])
        {
          OthersRemain(m0, mem, maps, i, j);
        }
        DropMapping(m0, mem, maps, i);
        SumDrop(maps, i);
        maps := Drop(maps, i);
      }
    }
  }

  /** `mmap_resize` leaves a chunk alone that is large enough but not too large. */
  predicate KeepsMapping(oldsize: int, nb: int, granularity: int) {
    oldsize >= nb + WORD_BYTES && oldsize - nb <= 2 * granularity
  }

  predicate InMap(base: int, len: int, w: int) { base <= w < base + len }

  /** The chunk set up at `offset` in a mapping that has room for it. */
  lemma SetUp(m: Mem, p: int, base: int, offset: int, len: int)
    requires p == base + offset && p % 16 == 0 && offset >= 0 && offset % 8 == 0 && offset + FOOT_PAD < len
    requires 0 <= base && base + len < WORD_LIMIT && Held(m, base, base + len) && len % 8 == 0
    ensures var m' := ChunkWrites(m[p := offset], p, Minus(len, offset + FOOT_PAD));
      && MappedChunk(m', Mapping(p, base, len)) && m'.Keys == m.Keys
      && p + HEAD in m' && Size(m'[p + HEAD]) == len - offset - FOOT_PAD
      && (forall w :: w in m && !(base <= w < base + len) ==> m'[w] == m[w])
      && (forall w :: p + MEM_OFFSET <= w < base + len - FOOT_PAD ==> m'[w] == m[w])
  {
    hide MappedChunk, Minus, Behind, Size, Mmapped;
    MinusWraps(len, offset + FOOT_PAD);
    PlainSize(len - offset - FOOT_PAD);
    ChunkInMapping(m[p := offset], p, base, offset, len);
    FenceSpots(p, base, offset, len);
  }

  /**
   A mapping of four megabytes whose chunk was aligned to one megabyte, as `internal_memalign` does, and is then
   shrunk to 4096 bytes. The system shrinks the mapping in place to two pages, which `mmap_resize` asks for, and the
   chunk is no longer inside it.
   */
  lemma ShrinkingLosesChunk() returns (m: Mem, m': Mem, x: Mapping)
    ensures AllMapped(m, [x]) && x.chunk == MappedPosition(x.base, 0x10_0000)
    ensures AlignedTo(x.chunk + MEM_OFFSET, 0x10_0000)
    ensures !IsSmall(4096) && x.chunk + HEAD in m && !KeepsMapping(Size(m[x.chunk + HEAD]), 4096, 0x1_0000)
    ensures MapSize(4096, 4096) == 8192 && Remapped(m, m', x.base, x.len, x.base, 8192)
    ensures !MappedChunk(ChunkWrites(m', x.chunk, Minus(8192, x.chunk - x.base + FOOT_PAD)),
                         Mapping(x.chunk, x.base, 8192))
  {
    hide MappedChunk, ChunkWrites, Size, Mmapped, Minus;
    var base, len := 0x10_0000, 0x40_0000;
    var newp := 0x20_0000 - MEM_OFFSET;
    assert AlignUp(base + MEM_OFFSET, 0x10_0000) == 0x20_0000;
    assert MapSize(4096, 4096) == 8192;
    var blank: Mem := map w | base <= w < base + len && InMap(base, len, w) :: 0;
    var m0 := ChunkWrites(blank[base := 0], base, Minus(len, FOOT_PAD));
    SetUp(blank, base, base, 0, len);
    x := Mapping(newp, base, len);
    m := m0[newp := m0[base] + (newp - base)][newp + HEAD := Size(m0[base + HEAD]) - (newp - base)];
    ChunkReads(m0, Mapping(base, base, len));
    MovedUp(m0, m, Mapping(base, base, len), newp);
    ChunkReads(m, x);
    m' := map w | base <= w < base + 8192 && InMap(base, 8192, w) && w in m :: m[w];
    PastTheEnd(m', newp, base, newp - base, 8192);
  }

  /** The memory after a mapping has moved: its contents have moved along. */
  function Relocated(m: Mem, base: int, len: int, cp: int, supplied: Mem): Mem {
    (map w | w in m && !InMap(base, len, w) :: m[w])
    + (map w | w in supplied :: if w - cp + base in m && 0 <= w - cp < len then m[w - cp + base] else supplied[w])
  }

  lemma RelocatedIs(m: Mem, base: int, len: int, cp: int, len': int, supplied: Mem)
    requires Held(m, base, base + len) && HEAP_START <= cp && cp % 16 == base % 16 && cp + len' < WORD_LIMIT
    requires forall w :: w in supplied <==> InMap(cp, len', w)
    requires forall w :: w in m && !InMap(base, len, w) ==> w !in supplied
    ensures Remapped(m, Relocated(m, base, len, cp, supplied), base, len, cp, len')
  {
    hide Relocated, InMap;
    var m' := Relocated(m, base, len, cp, supplied);
    forall w
      ensures w in m' <==> (w in m && !(base <= w < base + len)) || cp <= w < cp + len'
      ensures w in m && !(base <= w < base + len) ==> !(cp <= w < cp + len') && m'[w] == m[w]
    {
      RelocatedAt(m, base, len, cp, len', supplied, w);
    }
    forall w | base <= w < base + len && w < base + len'
      ensures w in m && m'[w - base + cp] == m[w]
    {
      RelocatedAt(m, base, len, cp, len', supplied, w - base + cp);
      assert w - base + cp - cp + base == w;
    }
  }

  lemma RelocatedAt(m: Mem, base: int, len: int, cp: int, len': int, supplied: Mem, w: int)
    requires w in supplied <==> InMap(cp, len', w)
    requires w in m && !InMap(base, len, w) ==> w !in supplied
    ensures var m' := Relocated(m, base, len, cp, supplied);
      && (w in m' <==> (w in m && !(base <= w < base + len)) || cp <= w < cp + len')
      && (w in m && !(base <= w < base + len) ==> !(cp <= w < cp + len') && m'[w] == m[w])
      && (cp <= w < cp + len' && w - cp < len && w - cp + base in m ==> m'[w] == m[w - cp + base])
  {
  }

  lemma Halves(mm: int)
    requires mm % 8 == 0
    ensures mm == 16 * (mm / 16) + mm % 16 && (mm % 16 == 0 || mm % 16 == 8)
  {
    var j := mm / 8;
    var i := j / 2;
    if j % 2 == 0 {
      assert mm == 16 * i;
    } else {
      assert mm == 16 * i + 8;
    }
  }

  lemma Rest16(k: int, r: int)
    requires 0 <= r < 16
    ensures (16 * k + r) % 16 == r
  {
  }

  lemma OffsetIs(mm: int)
    requires mm % 8 == 0
    ensures var o := AlignOffset(mm + MEM_OFFSET); (o == 0 || o == 8) && (mm + o) % 16 == 0
  {
    Halves(mm);
    if mm % 16 == 0 {
      Rest16(mm / 16 + 1, 15);
    } else {
      Rest16(mm / 16 + 2, 7);
    }
  }
}
