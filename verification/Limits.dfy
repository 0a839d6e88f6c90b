/** Legal granularities and the largest request: no sum on the way to the system can exceed a machine word. */
module Limits {
  import opened Words
  import opened SizeClasses

  const MIN_GRANULARITY: int := 2 * WORD_BYTES
  const DEFAULT_GRANULARITY: int := 64 * 1024
  const DEFAULT_TRIM_THRESHOLD: int := 2 * 1024 * 1024

  predicate IsPowerOfTwo(n: int) { n >= 1 && Pow2(Log2(n)) == n }

  /** What `set_granularity` accepts. */
  predicate LegalGranularity(g: int) { IsPowerOfTwo(g) && MIN_GRANULARITY <= g < WORD_LIMIT }

  /** `x & !malloc_alignment()`, which clears one bit and no more. */
  function ClearAlignmentBit(x: int): int {
    if x / MALLOC_ALIGNMENT % 2 == 1 then x - MALLOC_ALIGNMENT else x
  }

  /** What `sys_alloc` asks for on top of a chunk. */
  const SYS_PADDING: int := TOP_FOOT_SIZE + MALLOC_ALIGNMENT

  /** `max_request`, lines 240-256, where `!x + 1` is the two's complement of a word. */
  function MaxRequest(granularity: int): int {
    var space := ClearAlignmentBit(WORD_LIMIT - 1 - (granularity + SYS_PADDING) + 1) - CHUNK_OVERHEAD + 1;
    var cap := (WORD_LIMIT - MIN_CHUNK_SIZE) * 4 % WORD_LIMIT;
    if cap <= space then cap else space
  }

  lemma {:induction false} GranularityIsEven(e: int)
    requires e >= 4
    ensures Pow2(e) % 16 == 0 && Pow2(e) >= 16
    ensures (e >= 5 ==> Pow2(e) % 32 == 0 && Pow2(e) >= 32) && (e == 4 ==> Pow2(e) == 16)
  {
    if e == 4 {
      assert Pow2(3) == 8 by { assert Pow2(1) == 2; assert Pow2(2) == 4; }
    } else {
      GranularityIsEven(e - 1);
    }
  }

  /** A legal granularity is a multiple of 16, and of 32 unless it is the smallest one; it is at most half the range. */
  lemma GranularityFacts(g: int)
    requires LegalGranularity(g)
    ensures g % 16 == 0 && 16 <= g <= SIGN_BIT && (g != 16 ==> g % 32 == 0 && g >= 32)
  {
    var e := Log2(g);
    if e < 4 {
      Pow2Monotone(e + 1, 4);
      GranularityIsEven(4);
    } else {
      GranularityIsEven(e);
      if e >= 64 {
        Pow2Monotone(64, e);
        TopPower();
      } else {
        Pow2Monotone(e, 63);
        TopPower();
      }
    }
  }

  lemma TopPower()
    ensures Pow2(63) == SIGN_BIT && Pow2(64) == WORD_LIMIT
  {
    Pow2Constants();
    assert Pow2(64) == 2 * Pow2(63);
  }

  lemma MaxRequestValue(g: int)
    requires LegalGranularity(g)
    ensures MaxRequest(g) == WORD_LIMIT - (if g == 16 then 135 else g + SYS_PADDING + 7)
  {
    GranularityFacts(g);
  }

  lemma MaxRequestRoom(pad: int, g: int)
    requires LegalGranularity(g) && pad < MaxRequest(g)
    ensures pad + TOP_FOOT_SIZE < WORD_LIMIT
  {
    MaxRequestValue(g);
    GranularityFacts(g);
  }

  /**
   Every request below `max_request` can be padded and rounded up to any legal granularity without exceeding a
   machine word.
   */
  lemma BelowMaxRequest(g: int, req: int)
    requires LegalGranularity(g) && 0 <= req < MaxRequest(g)
    ensures Request2Size(req) <= req + CHUNK_OVERHEAD + MIN_CHUNK_SIZE - 1
    ensures req + CHUNK_OVERHEAD + (MALLOC_ALIGNMENT - 1) < WORD_LIMIT
    ensures Request2Size(req) + SYS_PADDING + (g - 1) < WORD_LIMIT
  {
    hide LegalGranularity, MaxRequest, Request2Size, PadRequest;
    MaxRequestValue(g);
    GranularityFacts(g);
    RequestFits(req);
    var bound := if g == 16 then WORD_LIMIT - 128 else WORD_LIMIT - g - SYS_PADDING;
    if req >= MIN_REQUEST {
      RoundsUpBelow(req + CHUNK_OVERHEAD, Request2Size(req), bound);
    } else {
      assert Request2Size(req) == MIN_CHUNK_SIZE by { SmallestSize(req); }
    }
  }

  lemma SmallestSize(req: int)
    requires 0 <= req < MIN_REQUEST
    ensures Request2Size(req) == MIN_CHUNK_SIZE
  {
  }

  /** Rounding up to 16 does not pass a multiple of 16. */
  lemma RoundsUpBelow(a: int, up: int, bound: int)
    requires a <= bound && up % 16 == 0 && bound % 16 == 0 && up < a + 16
    ensures up <= bound
  {
  }

  /**
   Which requests can be padded and rounded up without exceeding a machine word: exactly those below `max_request`, but
   for granularity 16, at which 16 more could be.
   */
  lemma MaxRequestTight(g: int, req: int)
    requires LegalGranularity(g) && req >= 0
    ensures PadRequest(req) + SYS_PADDING + (g - 1) < WORD_LIMIT <==>
      req < MaxRequest(g) + if g == MIN_GRANULARITY then MALLOC_ALIGNMENT else 0
  {
    MaxRequestValue(g);
    GranularityFacts(g);
    PadBounds(req);
    hide LegalGranularity, MaxRequest, PadRequest;
    var p, j := PadRequest(req) / 16, g / 16;
    assert PadRequest(req) == 16 * p && g == 16 * j;
    WordRoom(req, p, j);
  }

  lemma WordRoom(req: int, p: int, j: int)
    requires req + CHUNK_OVERHEAD <= 16 * p < req + CHUNK_OVERHEAD + MALLOC_ALIGNMENT
    ensures 16 * p + SYS_PADDING + (16 * j - 1) < WORD_LIMIT <==> req < WORD_LIMIT - (16 * j + SYS_PADDING + 7)
  {
  }

  lemma PadBounds(req: int)
    requires req >= 0
    ensures PadRequest(req) % 16 == 0
    ensures req + CHUNK_OVERHEAD <= PadRequest(req) < req + CHUNK_OVERHEAD + MALLOC_ALIGNMENT
  {
  }

  lemma SmallRequests(req: int, g: int)
    requires LegalGranularity(g) && 0 <= req
    ensures req <= MAX_SMALL_REQUEST ==> Request2Size(req) <= 240 && req < MaxRequest(g)
    ensures req > MAX_SMALL_REQUEST ==> PadRequest(req) == Request2Size(req) >= MIN_LARGE_SIZE
    ensures req < MaxRequest(g) ==>
      Request2Size(req) + SYS_PADDING + (g - 1) < WORD_LIMIT && Request2Size(req) < WORD_LIMIT
  {
    MaxRequestValue(g);
    GranularityFacts(g);
    if req < MaxRequest(g) {
      BelowMaxRequest(g, req);
    }
  }

  lemma AlignUpBounds(a: int, alignment: int)
    requires alignment > 0
    ensures a <= AlignUp(a, alignment) < a + alignment
  {
  }

  lemma MaxRequestPositive(g: int)
    requires LegalGranularity(g)
    ensures MaxRequest(g) > 0
  {
    SmallRequests(0, g);
  }

  lemma DefaultIsLegal()
    ensures LegalGranularity(DEFAULT_GRANULARITY)
  {
    GranularityIsEven(4);
    Pow2Adds(4, 4);
    Pow2Adds(8, 8);
    var k := Log2(DEFAULT_GRANULARITY);
    if k < 16 {
      Pow2Monotone(k + 1, 16);
    } else if k > 16 {
      Pow2Monotone(17, k);
    }
  }

  lemma SmallestIsLegal()
    ensures LegalGranularity(MIN_GRANULARITY)
  {
    SmallPowers(4);
    assert Log2(16) == 4;
  }

  lemma NoPower()
    ensures !IsPowerOfTwo(0)
  {
  }

  // ---------- alignments ----------

  lemma {:induction false} PowerMultiple(e: int)
    requires e >= 5
    ensures Pow2(e) % 32 == 0 && Pow2(e) >= 32
  {
    if e == 5 {
      assert Pow2(5) == 32 by { GranularityIsEven(5); Pow2Adds(4, 1); GranularityIsEven(4); }
    } else {
      PowerMultiple(e - 1);
    }
  }

  /** Any alignment of at least a minimum chunk is a multiple of one; a smaller one divides it. */
  lemma PowerFacts(a: int)
    requires IsPowerOfTwo(a)
    ensures a > 0 && (a >= MIN_CHUNK_SIZE ==> a % MIN_CHUNK_SIZE == 0 && a % 16 == 0)
    ensures a < MIN_CHUNK_SIZE ==> a == 1 || a == 2 || a == 4 || a == 8 || a == 16
  {
    var e := Log2(a);
    if e >= 5 {
      PowerMultiple(e);
    } else {
      SmallPowers(e);
    }
  }

  lemma SmallPowers(e: int)
    requires 0 <= e < 5
    ensures Pow2(e) == (if e == 0 then 1 else if e == 1 then 2 else if e == 2 then 4 else if e == 3 then 8 else 16)
  {
    assert Pow2(0) == 1;
    assert Pow2(1) == 2 * Pow2(0);
    assert Pow2(2) == 2 * Pow2(1);
    assert Pow2(3) == 2 * Pow2(2);
    assert Pow2(4) == 2 * Pow2(3);
  }

  /** The alignment `memalign` works with. */
  function AtLeastMinChunk(alignment: int): int { if alignment < MIN_CHUNK_SIZE then MIN_CHUNK_SIZE else alignment }

  /** The subtraction `max_request - alignment` of `memalign` does not wrap around. */
  predicate GuardHolds(alignment: int, g: int) { AtLeastMinChunk(alignment) <= MaxRequest(g) }

  /** It wraps for one pair of a legal granularity and an alignment only: both are half the address space. */
  lemma GuardWraps(alignment: int, g: int)
    requires IsPowerOfTwo(alignment) && alignment < WORD_LIMIT && LegalGranularity(g)
    ensures !GuardHolds(alignment, g) <==> alignment == SIGN_BIT && g == SIGN_BIT
  {
    MaxRequestValue(g);
    GranularityFacts(g);
    HalfOrLess(alignment);
    HalfOrLess(g);
  }

  lemma SmallAlignmentHolds(alignment: int, g: int)
    requires alignment <= MIN_CHUNK_SIZE && LegalGranularity(g)
    ensures GuardHolds(alignment, g)
  {
    MaxRequestValue(g);
    GranularityFacts(g);
  }

  /** A power of two below the word limit is at most half of it, and at most a quarter unless it is half of it. */
  lemma HalfOrLess(n: int)
    requires IsPowerOfTwo(n) && n < WORD_LIMIT
    ensures n == SIGN_BIT || n <= SIGN_BIT / 2
  {
    var e := Log2(n);
    TopPower();
    if e <= 62 {
      Pow2Monotone(e, 62);
      assert Pow2(63) == 2 * Pow2(62);
    } else if e >= 64 {
      Pow2Monotone(64, e);
    }
  }

  /**
   What `memalign` handles: an alignment for which its guard does not wrap around, or else a size below half the
   address space, as every layout has, or one that even the wrapped guard refuses.
   */
  predicate Alignable(alignment: int, size: int, g: int) {
    && IsPowerOfTwo(alignment) && alignment < WORD_LIMIT
    && (|| GuardHolds(alignment, g) || size + MIN_CHUNK_SIZE + CHUNK_OVERHEAD <= SIGN_BIT
        || size >= Minus(MaxRequest(g), alignment))
  }

  /** What `memalign` asks `malloc` for, as a number that may exceed a machine word. */
  function AlignedRequest(alignment: int, bytes: int): int {
    Request2Size(bytes) + AtLeastMinChunk(alignment) + MIN_CHUNK_SIZE - CHUNK_OVERHEAD
  }

  /** What a call with a layout asks `malloc` for. */
  function Asked(alignment: int, bytes: int): int {
    if alignment <= MALLOC_ALIGNMENT then bytes else AlignedRequest(alignment, bytes)
  }

  /**
   These are exactly the calls that are refused or whose padded request is a machine word. For any other call the
   padded request wraps around to less than the size asked for.
   */
  lemma AlignableIsExact(alignment: int, bytes: int, g: int)
    requires IsPowerOfTwo(alignment) && alignment < WORD_LIMIT && LegalGranularity(g) && 0 <= bytes < WORD_LIMIT
    ensures Alignable(alignment, bytes, g) <==>
      bytes >= Minus(MaxRequest(g), AtLeastMinChunk(alignment)) || AlignedRequest(alignment, bytes) < WORD_LIMIT
    ensures !Alignable(alignment, bytes, g) ==> 0 <= AlignedRequest(alignment, bytes) - WORD_LIMIT < bytes
  {
    GuardWraps(alignment, g);
    PowerFacts(alignment);
    MaxRequestValue(g);
    GranularityFacts(g);
    RequestFits(bytes);
    var align := AtLeastMinChunk(alignment);
    MinusWraps(MaxRequest(g), align);
    hide IsPowerOfTwo, LegalGranularity, MaxRequest, Minus, Request2Size;
    if GuardHolds(alignment, g) {
      if bytes < MaxRequest(g) - align {
        AlignedRequestFits(g, align, bytes);
      }
    } else {
      WrapsAbove(bytes, Request2Size(bytes));
    }
  }

  lemma WrapsAbove(bytes: int, nb: int)
    requires 0 <= bytes && nb % 16 == 0 && bytes + CHUNK_OVERHEAD <= nb && MIN_CHUNK_SIZE <= nb
    requires bytes >= MIN_REQUEST ==> nb < bytes + CHUNK_OVERHEAD + MALLOC_ALIGNMENT
    requires bytes < MIN_REQUEST ==> nb <= bytes + CHUNK_OVERHEAD + MIN_CHUNK_SIZE
    ensures nb + SIGN_BIT + MIN_CHUNK_SIZE - CHUNK_OVERHEAD < WORD_LIMIT <==>
      bytes + MIN_CHUNK_SIZE + CHUNK_OVERHEAD <= SIGN_BIT
  {
  }

  /** Where the guard wraps, what is not refused is padded to a request that `malloc` refuses. */
  lemma WrappedGuard(alignment: int, bytes: int, g: int)
    requires Alignable(alignment, bytes, g) && !GuardHolds(alignment, g) && LegalGranularity(g) && 0 <= bytes
    requires bytes < Minus(MaxRequest(g), alignment)
    ensures MaxRequest(g) <= AlignedRequest(alignment, bytes) < WORD_LIMIT && alignment >= MIN_CHUNK_SIZE
  {
    GuardWraps(alignment, g);
    MaxRequestValue(g);
    RequestFits(bytes);
  }

  /** What is refused outright would have been refused by `malloc`. */
  lemma TooLarge(alignment: int, bytes: int, g: int)
    requires 0 <= bytes && alignment > 0 && bytes >= MaxRequest(g) - AtLeastMinChunk(alignment)
    ensures AlignedRequest(alignment, bytes) >= MaxRequest(g)
  {
    RequestFits(bytes);
  }

  /** Both branches of the guard of `memalign`: what is refused, and what is passed on to `malloc`. */
  lemma GuardOf(alignment: int, bytes: int, g: int)
    requires Alignable(alignment, bytes, g) && LegalGranularity(g) && 0 <= bytes
    ensures var req := AlignedRequest(alignment, bytes);
      if bytes >= Minus(MaxRequest(g), AtLeastMinChunk(alignment)) then req >= MaxRequest(g)
      else 0 <= req < WORD_LIMIT && (!GuardHolds(alignment, g) ==> req >= MaxRequest(g))
  {
    hide IsPowerOfTwo, LegalGranularity, MaxRequest, Minus, Request2Size;
    PowerFacts(alignment);
    MaxRequestValue(g);
    GranularityFacts(g);
    if GuardHolds(alignment, g) {
      var align := AtLeastMinChunk(alignment);
      MinusWraps(MaxRequest(g), align);
      assert Minus(MaxRequest(g), align) == MaxRequest(g) - align;
      if bytes >= MaxRequest(g) - align {
        TooLarge(alignment, bytes, g);
      } else {
        AlignedRequestFits(g, align, bytes);
      }
    } else {
      GuardWraps(alignment, g);
      RequestFits(bytes);
      MinusWraps(MaxRequest(g), alignment);
      if bytes < Minus(MaxRequest(g), alignment) {
        WrappedGuard(alignment, bytes, g);
      }
    }
  }

  /** The padded request of `memalign` does not exceed a machine word. */
  lemma AlignedRequestFits(g: int, alignment: int, bytes: int)
    requires LegalGranularity(g) && 0 <= bytes < MaxRequest(g) - alignment && alignment > 0
    ensures 0 <= Request2Size(bytes) + alignment + MIN_CHUNK_SIZE - CHUNK_OVERHEAD < WORD_LIMIT
  {
    MaxRequestValue(g);
    GranularityFacts(g);
    RequestFits(bytes);
  }

  /** An address aligned to the alignment that is used is aligned to the one asked for. */
  lemma AlignedFor(a: int, alignment: int, asked: int)
    requires IsPowerOfTwo(asked) && alignment == (if asked < MIN_CHUNK_SIZE then MIN_CHUNK_SIZE else asked)
    requires a % alignment == 0
    ensures a % asked == 0
  {
    PowerFacts(asked);
    hide IsPowerOfTwo;
    if asked < MIN_CHUNK_SIZE {
      Divides32(a, asked);
    }
  }

  lemma Divides32(a: int, k: int)
    requires a % 32 == 0 && (k == 1 || k == 2 || k == 4 || k == 8 || k == 16)
    ensures a % k == 0
  {
    if k == 2 {
      assert a % 2 == 0;
    } else if k == 4 {
      assert a % 4 == 0;
    } else if k == 8 {
      assert a % 8 == 0;
    } else if k == 16 {
      assert a % 16 == 0;
    }
  }
}
