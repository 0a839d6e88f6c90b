/**
 Machine words of a 64-bit target: sizes, the layout constants of the allocator, and the packing of a chunk
 size with its PINUSE, CINUSE and FLAG4 bits into one `head` word.

 A word is an `int` between 0 and `WORD_LIMIT`; wrap-around is written out where the code can reach it.
 */
module Words {

  const WORD_LIMIT: int := 0x1_0000_0000_0000_0000
  const WORD_BYTES: int := 8
  const MALLOC_ALIGNMENT: int := 16
  const CHUNK_OVERHEAD: int := 8
  const MIN_CHUNK_SIZE: int := 32
  const MEM_OFFSET: int := 16
  /** What a `Segment` record needs as a chunk: 32 bytes of record, padded. */
  const RECORD_SIZE: int := 48
  /** Room kept behind `top` for a future segment record and its fenceposts. */
  const TOP_FOOT_SIZE: int := 80
  const MAX_SMALL_REQUEST: int := 232
  const MIN_REQUEST: int := 23
  const FENCEPOST_HEAD: int := 11

  /** `(a + (alignment - 1)) & !(alignment - 1)` for a power of two `alignment`. */
  function AlignUp(a: int, alignment: int): int
    requires alignment > 0
  {
    (a + (alignment - 1)) - (a + (alignment - 1)) % alignment
  }

  /** `a - b` on unsigned words. */
  function Minus(a: int, b: int): int { (a - b) % WORD_LIMIT }

  lemma MinusWraps(a: int, b: int)
    requires 0 <= a < WORD_LIMIT && 0 <= b < WORD_LIMIT
    ensures Minus(a, b) == if a >= b then a - b else a - b + WORD_LIMIT
  {
    assert (a - b + WORD_LIMIT) % WORD_LIMIT == (a - b) % WORD_LIMIT;
  }

  /** A sum the code relies on to be a machine word. */
  function Plus(a: int, b: int): int
    requires 0 <= a + b < WORD_LIMIT
  {
    a + b
  }

  function PadRequest(amt: int): int {
    AlignUp(amt + CHUNK_OVERHEAD, MALLOC_ALIGNMENT)
  }

  function Request2Size(req: int): int {
    if req < MIN_REQUEST then MIN_CHUNK_SIZE else PadRequest(req)
  }

  function AlignOffset(addr: int): int {
    AlignUp(addr, MALLOC_ALIGNMENT) - addr
  }

  /** `align_as_chunk`: the first address from `ptr` on whose payload is aligned. */
  function AlignAsChunk(ptr: int): (p: int)
    ensures ptr % MALLOC_ALIGNMENT == 0 ==> p == ptr
  {
    ptr + AlignOffset(ptr + MEM_OFFSET)
  }

  /** The constants above are the values of the port's layout formulas when a `usize` has 8 bytes. */
  lemma LayoutConstants()
    ensures MALLOC_ALIGNMENT == 2 * WORD_BYTES
    ensures MIN_CHUNK_SIZE == AlignUp(4 * WORD_BYTES, MALLOC_ALIGNMENT)
    ensures MIN_REQUEST == MIN_CHUNK_SIZE - CHUNK_OVERHEAD - 1
    ensures MAX_SMALL_REQUEST == (256 - 1) - (MALLOC_ALIGNMENT - 1) - CHUNK_OVERHEAD
    ensures RECORD_SIZE == PadRequest(4 * WORD_BYTES)
    ensures TOP_FOOT_SIZE == AlignOffset(MEM_OFFSET) + RECORD_SIZE + MIN_CHUNK_SIZE
  {
  }

  /** The chunk size covers the request and its overhead word, and wastes less than a minimum chunk. */
  lemma RequestFits(req: int)
    requires 0 <= req
    ensures Request2Size(req) % MALLOC_ALIGNMENT == 0
    ensures MIN_CHUNK_SIZE <= Request2Size(req)
    ensures req + CHUNK_OVERHEAD <= Request2Size(req) <= req + CHUNK_OVERHEAD + (MIN_CHUNK_SIZE - CHUNK_OVERHEAD)
    ensures req >= MIN_REQUEST ==> Request2Size(req) < req + CHUNK_OVERHEAD + MALLOC_ALIGNMENT
  {
  }

  // ---------- head words ----------

  function Size(head: int): int { head - head % 8 }
  predicate Pinuse(head: int) { head % 2 == 1 }
  predicate Cinuse(head: int) { head / 2 % 2 == 1 }
  /** `head & INUSE` */
  function InuseBits(head: int): int { head % 4 }
  /** `head & INUSE != PINUSE` */
  predicate Inuse(head: int) { InuseBits(head) != 1 }
  /** `head & INUSE == 0` */
  predicate Mmapped(head: int) { InuseBits(head) == 0 }

  /** `size | PINUSE? | CINUSE?` */
  function Head(size: int, pin: bool, cin: bool): int {
    size + (if pin then 1 else 0) + (if cin then 2 else 0)
  }

  /** `head |= PINUSE` */
  function SetPinuse(head: int): int { if Pinuse(head) then head else head + 1 }
  /** `head &= !PINUSE` */
  function ClearPinuse(head: int): int { if Pinuse(head) then head - 1 else head }

  /** Packing loses nothing: the size and both flags come back, and the flag updates touch only their flag. */
  lemma HeadRoundTrip(size: int, pin: bool, cin: bool)
    requires 0 <= size && size % 8 == 0
    ensures var h := Head(size, pin, cin);
      && Size(h) == size && Pinuse(h) == pin && Cinuse(h) == cin
      && (Inuse(h) <==> cin || !pin) && (Mmapped(h) <==> !cin && !pin)
      && (InuseBits(h) == 3 <==> cin && pin)
      && SetPinuse(h) == Head(size, true, cin)
      && ClearPinuse(h) == Head(size, false, cin)
  {
  }
}
