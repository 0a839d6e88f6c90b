/**
 The boundary-tag heap: chunks tile the held segments, and the words of memory agree with them.

 A chunk's `head` packs its size with PINUSE (is the chunk before it in use?) and CINUSE (is it in use?). The first
 word of a chunk, `prev_foot`, belongs to the chunk before it: it is that chunk's last payload word while it is in
 use, and its foot, equal to its size, while it is free.
 */
module Tiling {
  import opened Words
  import opened Memory

  /**
   What a chunk is: a block handed out for a request of `req` bytes, a free chunk, the top chunk, a segment
   record, the fenceposts behind a record, or the reserve behind top.
   */
  datatype Kind = Live(req: int) | Free | Top | Rec | Fence | Foot

  /** `pin` is the PINUSE flag; `first` marks the first chunk of a segment. */
  datatype Chunk = Chunk(size: int, kind: Kind, pin: bool, first: bool)

  predicate Used(k: Kind) { k.Live? || k.Rec? || k.Fence? }

  predicate Ends(k: Kind) { k.Fence? || k.Foot? }

  /** The value of the `head` word. */
  function HeadWord(c: Chunk): int {
    match c.kind
    case Fence => FENCEPOST_HEAD
    case Foot => TOP_FOOT_SIZE
    case _ => Head(c.size, c.pin, Used(c.kind))
  }

  /** What `validate_size` may be asked to accept, as `psize <= size + max_overhead`. */
  const MAX_OVERHEAD: int := CHUNK_OVERHEAD + MIN_CHUNK_SIZE * 2 + WORD_BYTES - 1

  predicate KindOk(size: int, k: Kind) {
    && 0 < size && size % 16 == 0
    && match k
       case Live(req) => MIN_CHUNK_SIZE <= size && 0 <= req && req + CHUNK_OVERHEAD <= size <= req + MAX_OVERHEAD
       case Free => MIN_CHUNK_SIZE <= size
       case Top => true
       case Rec => size == RECORD_SIZE
       case Fence => size == 32 || size == 48
       case Foot => size == TOP_FOOT_SIZE
  }

  predicate PinOk(c: Chunk) {
    && (c.first || c.kind.Free? || c.kind.Top? || c.kind.Fence? ==> c.pin)
    && (c.kind.Foot? ==> !c.pin)
  }

  /** These addresses are held memory. */
  ghost predicate Held(m: Mem, lo: int, hi: int) { forall w :: lo <= w < hi ==> w in m }

  /** The chunk's own words. */
  ghost predicate SelfOk(m: Mem, a: int, c: Chunk) {
    && HEAP_START <= a && a % 16 == 0 && a + c.size < WORD_LIMIT
    && KindOk(c.size, c.kind) && PinOk(c)
    && Held(m, a, a + c.size)
    && a + HEAD in m && m[a + HEAD] == HeadWord(c)
  }

  /** The chunk and the one behind it. */
  ghost predicate NextOk(m: Mem, cs: map<int, Chunk>, a: int, c: Chunk) {
    !Ends(c.kind) ==>
      var n := a + c.size;
      && n in cs && !cs[n].first && cs[n].pin == Used(c.kind)
      && (c.kind.Free? ==> Used(cs[n].kind) && n in m && m[n] == c.size)
      && (c.kind.Top? <==> cs[n].kind.Foot?)
      && (c.kind.Rec? <==> cs[n].kind.Fence?)
  }

  /** With PINUSE clear, `prev_foot` leads back to a free chunk. */
  ghost predicate PrevOk(m: Mem, cs: map<int, Chunk>, a: int, c: Chunk) {
    !c.pin && !c.kind.Foot? ==>
      a in m && a - m[a] in cs && cs[a - m[a]].kind.Free? && cs[a - m[a]].size == m[a]
  }

  ghost predicate ChunkOk(m: Mem, cs: map<int, Chunk>, a: int)
    requires a in cs
  {
    SelfOk(m, a, cs[a]) && NextOk(m, cs, a, cs[a]) && PrevOk(m, cs, a, cs[a])
  }

  ghost predicate Disjoint(cs: map<int, Chunk>) {
    forall a, b :: a in cs && b in cs && a < b ==> a + cs[a].size <= b
  }

  ghost predicate TagsOk(m: Mem, cs: map<int, Chunk>) {
    && (forall a :: a in cs ==> ChunkOk(m, cs, a))
    && Disjoint(cs)
  }

  // ---------- live blocks ----------

  datatype Block = Block(size: int, req: int)

  /** The blocks handed out and not freed yet. */
  ghost function LiveOf(cs: map<int, Chunk>): map<int, Block> {
    map a | a in cs && cs[a].kind.Live? :: Block(cs[a].size, cs[a].kind.req)
  }

  /** The payload of a block: from behind its head up to and including the `prev_foot` word of its successor. */
  predicate Payload(a: int, size: int, w: int) { a + MEM_OFFSET <= w < a + size + WORD_BYTES }

  ghost predicate SamePayload(m: Mem, m': Mem, a: int, size: int) {
    forall w :: Payload(a, size, w) ==> w in m && w in m' && m'[w] == m[w]
  }

  /** No payload word of these blocks has changed. */
  ghost predicate Untouched(m: Mem, m': Mem, live: map<int, Block>) {
    forall a :: a in live ==> SamePayload(m, m', a, live[a].size)
  }

  lemma UntouchedTrans(m: Mem, m1: Mem, m2: Mem, live: map<int, Block>)
    requires Untouched(m, m1, live) && Untouched(m1, m2, live)
    ensures Untouched(m, m2, live)
  {
    forall a | a in live
      ensures SamePayload(m, m2, a, live[a].size)
    {
      assert SamePayload(m, m1, a, live[a].size) && SamePayload(m1, m2, a, live[a].size);
    }
  }

  lemma UntouchedFewer(m: Mem, m': Mem, live: map<int, Block>, fewer: map<int, Block>)
    requires Untouched(m, m', live)
    requires forall a :: a in fewer ==> a in live && live[a].size == fewer[a].size
    ensures Untouched(m, m', fewer)
  {
    hide SamePayload;
    forall a | a in fewer
      ensures SamePayload(m, m', a, fewer[a].size)
    {
      assert SamePayload(m, m', a, live[a].size);
    }
  }

  // ---------- replacing a run of chunks ----------

  function Inner(cs: map<int, Chunk>, lo: int, hi: int): set<int> {
    set a | a in cs && lo < a < hi
  }

  /** The chunks between `lo` and `hi` become one of kind `k1`, or, when `mid < hi`, two of kinds `k1` and `k2`. */
  function Retile(cs: map<int, Chunk>, lo: int, mid: int, hi: int, k1: Kind, k2: Kind): map<int, Chunk> {
    if lo !in cs || hi !in cs then cs else
    var rest := cs - Inner(cs, lo, hi);
    var one := rest[lo := Chunk(mid - lo, k1, cs[lo].pin, cs[lo].first)]
                   [hi := cs[hi].(pin := Used(if mid == hi then k1 else k2))];
    if mid == hi then one else one[mid := Chunk(hi - mid, k2, Used(k1), false)]
  }

  ghost predicate CanRetile(cs: map<int, Chunk>, lo: int, mid: int, hi: int, k1: Kind, k2: Kind) {
    && lo in cs && hi in cs && lo < mid <= hi && mid % 16 == 0
    && !cs[hi].first && !cs[hi].kind.Fence?
    && (forall a :: a in cs && lo <= a < hi ==>
          (cs[a].kind.Live? || cs[a].kind.Free? || cs[a].kind.Top?) && (lo < a ==> !cs[a].first))
    && (k1.Live? || k1.Free? || k1.Top?) && KindOk(mid - lo, k1)
    && (k1.Free? || k1.Top? ==> mid == hi && cs[lo].pin)
    && (mid < hi ==> (k2.Live? || k2.Free? || k2.Top?) && KindOk(hi - mid, k2))
    && var last := if mid == hi then k1 else k2;
    && (last.Free? ==> Used(cs[hi].kind))
    && (last.Top? <==> cs[hi].kind.Foot?)
    && (!Used(last) ==> !cs[hi].kind.Free? && !cs[hi].kind.Top?)
  }

  /** Only words from the head of `lo` to the head of `hi` may differ. */
  ghost predicate Local(m: Mem, m': Mem, lo: int, hi: int) {
    && m'.Keys == m.Keys
    && forall w :: w in m && (w < lo + HEAD || w >= hi + PREV) ==> m'[w] == m[w]
  }

  /** The heads and the foot of the new chunks have been written. */
  ghost predicate TagsWritten(m': Mem, cs: map<int, Chunk>, lo: int, mid: int, hi: int, k1: Kind, k2: Kind)
    requires lo in cs && hi in cs
  {
    var cs' := Retile(cs, lo, mid, hi, k1, k2);
    && lo + HEAD in m' && m'[lo + HEAD] == HeadWord(cs'[lo])
    && hi + HEAD in m' && m'[hi + HEAD] == HeadWord(cs'[hi])
    && (mid < hi ==> mid + HEAD in m' && m'[mid + HEAD] == HeadWord(cs'[mid]))
    && (mid == hi && k1.Free? ==> hi in m' && m'[hi] == hi - lo)
    && (mid < hi && k2.Free? ==> hi in m' && m'[hi] == hi - mid)
  }

  lemma ChunkAt(m: Mem, cs: map<int, Chunk>, a: int)
    requires TagsOk(m, cs) && a in cs
    ensures ChunkOk(m, cs, a)
  {
  }

  lemma Beside(m: Mem, cs: map<int, Chunk>, a: int, b: int)
    requires TagsOk(m, cs) && a in cs && b in cs
    ensures a < b ==> a + cs[a].size <= b
    ensures b < a ==> b + cs[b].size <= a
  {
    hide ChunkOk;
  }

  lemma RetileKeys(cs: map<int, Chunk>, lo: int, mid: int, hi: int, k1: Kind, k2: Kind, a: int)
    requires CanRetile(cs, lo, mid, hi, k1, k2)
    ensures var cs' := Retile(cs, lo, mid, hi, k1, k2);
      && (a in cs' <==> (a in cs && (a <= lo || a >= hi)) || a == mid)
      && cs'[lo] == Chunk(mid - lo, k1, cs[lo].pin, cs[lo].first)
      && cs'[hi] == cs[hi].(pin := Used(if mid == hi then k1 else k2))
      && (mid < hi ==> cs'[mid] == Chunk(hi - mid, k2, Used(k1), false))
      && (a in cs && (a < lo || a > hi) ==> cs'[a] == cs[a])
  {
  }

  lemma RetileDisjoint(m: Mem, cs: map<int, Chunk>, lo: int, mid: int, hi: int, k1: Kind, k2: Kind)
    requires TagsOk(m, cs) && CanRetile(cs, lo, mid, hi, k1, k2)
    ensures Disjoint(Retile(cs, lo, mid, hi, k1, k2))
  {
    hide ChunkOk, CanRetile, Retile, KindOk;
    assert lo in cs && hi in cs && lo < mid <= hi by { RetileBounds(cs, lo, mid, hi, k1, k2); }
    var cs' := Retile(cs, lo, mid, hi, k1, k2);
    forall a, b | a in cs' && b in cs' && a < b
      ensures a + cs'[a].size <= b
    {
      RetileKeys(cs, lo, mid, hi, k1, k2, a);
      RetileKeys(cs, lo, mid, hi, k1, k2, b);
    }
  }

  lemma RetileBounds(cs: map<int, Chunk>, lo: int, mid: int, hi: int, k1: Kind, k2: Kind)
    requires CanRetile(cs, lo, mid, hi, k1, k2)
    ensures lo in cs && hi in cs && lo < mid <= hi
  {
  }

  /** The new chunks' own words. */
  lemma RetileSelf(m: Mem, m': Mem, cs: map<int, Chunk>, lo: int, mid: int, hi: int, k1: Kind, k2: Kind, a: int)
    requires TagsOk(m, cs) && CanRetile(cs, lo, mid, hi, k1, k2) && Local(m, m', lo, hi) && Held(m, lo, hi)
    requires TagsWritten(m', cs, lo, mid, hi, k1, k2)
    requires a in Retile(cs, lo, mid, hi, k1, k2)
    ensures SelfOk(m', a, Retile(cs, lo, mid, hi, k1, k2)[a])
  {
    hide Retile, TagsOk, NextOk, PrevOk, HeadWord;
    RetileKeys(cs, lo, mid, hi, k1, k2, a);
    RetileKeys(cs, lo, mid, hi, k1, k2, lo);
    ChunkAt(m, cs, lo);
    ChunkAt(m, cs, hi);
    if a < lo || hi < a {
      ChunkAt(m, cs, a);
      Beside(m, cs, a, lo);
      Beside(m, cs, a, hi);
    }
  }

  lemma RetileNext(m: Mem, m': Mem, cs: map<int, Chunk>, lo: int, mid: int, hi: int, k1: Kind, k2: Kind, a: int)
    requires TagsOk(m, cs) && CanRetile(cs, lo, mid, hi, k1, k2) && Local(m, m', lo, hi)
    requires TagsWritten(m', cs, lo, mid, hi, k1, k2)
    requires a in Retile(cs, lo, mid, hi, k1, k2)
    ensures NextOk(m', Retile(cs, lo, mid, hi, k1, k2), a, Retile(cs, lo, mid, hi, k1, k2)[a])
  {
    hide Retile, TagsOk, HeadWord, Held;
    var cs' := Retile(cs, lo, mid, hi, k1, k2);
    RetileKeys(cs, lo, mid, hi, k1, k2, a);
    RetileKeys(cs, lo, mid, hi, k1, k2, a + cs'[a].size);
    ChunkAt(m, cs, lo);
    ChunkAt(m, cs, hi);
    if a < lo || hi <= a {
      ChunkAt(m, cs, a);
      Beside(m, cs, a, lo);
      Beside(m, cs, a, hi);
    }
  }

  lemma RetilePrev(m: Mem, m': Mem, cs: map<int, Chunk>, lo: int, mid: int, hi: int, k1: Kind, k2: Kind, a: int)
    requires TagsOk(m, cs) && CanRetile(cs, lo, mid, hi, k1, k2) && Local(m, m', lo, hi)
    requires TagsWritten(m', cs, lo, mid, hi, k1, k2)
    requires a in Retile(cs, lo, mid, hi, k1, k2)
    ensures PrevOk(m', Retile(cs, lo, mid, hi, k1, k2), a, Retile(cs, lo, mid, hi, k1, k2)[a])
  {
    hide Retile, TagsOk, HeadWord, Held, NextOk;
    var cs' := Retile(cs, lo, mid, hi, k1, k2);
    RetileKeys(cs, lo, mid, hi, k1, k2, a);
    RetileKeys(cs, lo, mid, hi, k1, k2, lo);
    RetileKeys(cs, lo, mid, hi, k1, k2, mid);
    ChunkAt(m, cs, lo);
    ChunkAt(m, cs, hi);
    if a <= lo || hi < a {
      ChunkAt(m, cs, a);
      Beside(m, cs, a, lo);
      Beside(m, cs, a, hi);
      if !cs[a].pin && !cs[a].kind.Foot? {
        ChunkAt(m, cs, a - m[a]);
        RetileKeys(cs, lo, mid, hi, k1, k2, a - m[a]);
        Beside(m, cs, a - m[a], hi);
        Beside(m, cs, a - m[a], lo);
      }
    }
  }

  /** Retiling a run, with its tags written, keeps the heap's tags in order. */
  lemma RetileTags(m: Mem, m': Mem, cs: map<int, Chunk>, lo: int, mid: int, hi: int, k1: Kind, k2: Kind)
    requires TagsOk(m, cs) && CanRetile(cs, lo, mid, hi, k1, k2) && Local(m, m', lo, hi) && Held(m, lo, hi)
    requires TagsWritten(m', cs, lo, mid, hi, k1, k2)
    ensures TagsOk(m', Retile(cs, lo, mid, hi, k1, k2))
  {
    RetileDisjoint(m, cs, lo, mid, hi, k1, k2);
    var cs' := Retile(cs, lo, mid, hi, k1, k2);
    forall a | a in cs'
      ensures ChunkOk(m', cs', a)
    {
      hide TagsOk, CanRetile, Local, Held, TagsWritten, Retile, SelfOk, NextOk, PrevOk;
      RetileSelf(m, m', cs, lo, mid, hi, k1, k2, a);
      RetileNext(m, m', cs, lo, mid, hi, k1, k2, a);
      RetilePrev(m, m', cs, lo, mid, hi, k1, k2, a);
    }
    hide ChunkOk, Retile, CanRetile, Local, TagsWritten;
  }
}
