/**
 The chunk operations the allocator is made of, each as a step from one good state to another: taking a free chunk
 whole or split, splitting top, freeing a run of neighbours, cutting and joining blocks.
 */
module HeapOps {
  import opened Words
  import opened Memory
  import opened FreeIndex
  import opened IndexReads
  import opened Tiling
  import opened HeapState

  // ---------- the header writers of `impl Chunk`, lines 1809-1838 ----------

  /** The word at `a`; the code only reads held words. */
  function At(m: Mem, a: int): int { if a in m then m[a] else 0 }

  function SetInuse(m: Mem, p: int, size: int): Mem {
    var m1 := m[p + HEAD := Head(size, Pinuse(At(m, p + HEAD)), true)];
    m1[p + size + HEAD := SetPinuse(At(m1, p + size + HEAD))]
  }

  function SetInuseAndPinuse(m: Mem, p: int, size: int): Mem {
    var m1 := m[p + HEAD := Head(size, true, true)];
    m1[p + size + HEAD := SetPinuse(At(m1, p + size + HEAD))]
  }

  function SetSizeAndPinuseOfInuseChunk(m: Mem, p: int, size: int): Mem {
    m[p + HEAD := Head(size, true, true)]
  }

  function SetSizeAndPinuseOfFreeChunk(m: Mem, p: int, size: int): Mem {
    m[p + HEAD := Head(size, true, false)][p + size := size]
  }

  function SetFreeWithPinuse(m: Mem, p: int, size: int, n: int): Mem {
    SetSizeAndPinuseOfFreeChunk(m[n + HEAD := ClearPinuse(At(m, n + HEAD))], p, size)
  }

  // ---------- reading the tags ----------

  /** What the head word of a chunk says. */
  ghost predicate TagReads(m: Mem, a: int, c: Chunk) {
    && HEAP_START <= a && a % 16 == 0 && a + c.size < WORD_LIMIT && c.size % 16 == 0 && c.size > 0
    && a in m && a + HEAD in m
    && Pinuse(m[a + HEAD]) == c.pin && Cinuse(m[a + HEAD]) == Used(c.kind)
    && InuseBits(m[a + HEAD]) == (if c.pin then 1 else 0) + (if Used(c.kind) then 2 else 0)
    && (!Ends(c.kind) ==> Size(m[a + HEAD]) == c.size)
    && (c.kind.Live? || c.kind.Free? ==> MIN_CHUNK_SIZE <= c.size)
  }

  lemma ReadTags(h: Heap, holes: set<int>, a: int)
    requires Good(h, holes) && a in h.cs
    ensures TagReads(h.m, a, h.cs[a])
    ensures Held(h.m, a, a + h.cs[a].size)
    ensures !Ends(h.cs[a].kind) ==> a + h.cs[a].size in h.cs
  {
    hide TagsOk, IndexOk, PartsOk, SegsOk, DomainOk, EndsOk, PrevOk;
    ChunkAt(h.m, h.cs, a);
    HeadRoundTrip(h.cs[a].size, h.cs[a].pin, Used(h.cs[a].kind));
  }

  /** The relation of a chunk to the one behind it. */
  ghost predicate NextReads(m: Mem, cs: map<int, Chunk>, a: int, c: Chunk) {
    var n := a + c.size;
    && n in cs && !cs[n].first && cs[n].pin == Used(c.kind)
    && (c.kind.Free? ==> Used(cs[n].kind) && At(m, n) == c.size)
    && (c.kind.Top? <==> cs[n].kind.Foot?) && (c.kind.Rec? <==> cs[n].kind.Fence?)
  }

  lemma ReadNext(h: Heap, holes: set<int>, a: int)
    requires Good(h, holes) && a in h.cs && !Ends(h.cs[a].kind)
    ensures NextReads(h.m, h.cs, a, h.cs[a])
  {
    hide TagsOk, IndexOk, PartsOk, SegsOk, DomainOk, EndsOk, PrevOk, SelfOk;
    ChunkAt(h.m, h.cs, a);
  }

  /** With PINUSE clear, the chunk before is free and `prev_foot` is its size. */
  ghost predicate PrevReads(m: Mem, cs: map<int, Chunk>, a: int) {
    var p := a - At(m, a);
    && a in m && p in cs && cs[p].kind.Free? && cs[p].size == At(m, a) && cs[p].pin && MIN_CHUNK_SIZE <= cs[p].size
  }

  lemma ReadPrev(h: Heap, holes: set<int>, a: int)
    requires Good(h, holes) && a in h.cs && !h.cs[a].pin && !h.cs[a].kind.Foot?
    ensures PrevReads(h.m, h.cs, a)
  {
    hide TagsOk, IndexOk, PartsOk, SegsOk, DomainOk, EndsOk, NextOk;
    ChunkAt(h.m, h.cs, a);
    ChunkAt(h.m, h.cs, a - h.m[a]);
  }

  lemma GoodBeside(h: Heap, holes: set<int>, a: int, b: int)
    requires Good(h, holes) && a in h.cs && b in h.cs
    ensures a < b ==> a + h.cs[a].size <= b
    ensures b < a ==> b + h.cs[b].size <= a
  {
    hide TagsOk, IndexOk, PartsOk, SegsOk, DomainOk, EndsOk;
    Beside(h.m, h.cs, a, b);
  }

  /** A chunk is in use, in a bin, the designated victim, in hand, or top. */
  lemma WhereFree(h: Heap, holes: set<int>, a: int)
    requires Good(h, holes) && a in h.cs
    ensures h.cs[a].kind.Free? <==> a in h.ix.sizes || (a == h.dv && h.dv != 0) || a in holes
    ensures a in h.ix.sizes ==> h.ix.sizes[a] == h.cs[a].size && a !in holes && a != h.dv
    ensures a in holes ==> a != h.dv
    ensures h.cs[a].kind.Top? <==> a == h.top
    ensures a == h.dv && h.dv != 0 ==> h.cs[a].size == h.dvsize
    ensures a == h.top ==> h.cs[a].size == h.topsize
    ensures a != 0
  {
    hide TagsOk, IndexOk, SegsOk, DomainOk, EndsOk;
    NoNull(h.m, h.cs);
  }

  /** No chunk in any list starts strictly inside another chunk. */
  lemma NoneInside(h: Heap, holes: set<int>, lo: int)
    requires Good(h, holes) && lo in h.cs
    ensures forall a :: a in h.cs && lo <= a < lo + h.cs[lo].size ==> a == lo
  {
    forall a | a in h.cs && lo <= a < lo + h.cs[lo].size
      ensures a == lo
    {
      hide Good;
      GoodBeside(h, holes, lo, a);
    }
  }

  lemma BinnedInCs(h: Heap, holes: set<int>)
    requires Good(h, holes)
    ensures forall a :: a in h.ix.sizes ==> a in h.cs && h.cs[a].kind.Free? && a !in holes && a != h.dv
    ensures forall a :: a in holes ==> a in h.cs && h.cs[a].kind.Free? && a != h.dv
    ensures h.dv != 0 ==> h.dv in h.cs && h.cs[h.dv].kind.Free? && h.cs[h.dv].size == h.dvsize
    ensures h.dv == 0 ==> h.dvsize == 0
    ensures h.top != 0 ==> h.top in h.cs && h.cs[h.top].kind.Top? && h.cs[h.top].size == h.topsize
    ensures h.top == 0 ==> h.topsize == 0
  {
    hide TagsOk, IndexOk, SegsOk, DomainOk, EndsOk;
  }

  lemma BinnedSize(h: Heap, holes: set<int>, a: int)
    requires Good(h, holes) && a in h.ix.sizes
    ensures a in h.cs && h.cs[a].kind.Free? && h.cs[a].size == h.ix.sizes[a] && a !in holes && a != h.dv
  {
    hide TagsOk, IndexOk, SegsOk, DomainOk, EndsOk;
  }

  // ---------- the designated victim as a chunk in hand ----------

  /** A chunk ends below the top of the address space. */
  lemma ChunkEnds(h: Heap, holes: set<int>, a: int)
    requires Good(h, holes) && a in h.cs
    ensures HEAP_START <= a && 0 < h.cs[a].size && a + h.cs[a].size < WORD_LIMIT
  {
    hide Good;
    ReadTags(h, holes, a);
  }

  lemma VictimReads(h: Heap, holes: set<int>)
    requires Good(h, holes)
    ensures h.dv == 0 <==> h.dvsize == 0
    ensures h.dv != 0 ==>
      h.dv in h.cs && h.cs[h.dv].kind.Free? && h.cs[h.dv].size == h.dvsize && h.dvsize >= MIN_CHUNK_SIZE
  {
    hide Good;
    BinnedInCs(h, holes);
    if h.dv != 0 {
      HeadOf(h, holes, h.dv);
    }
  }

  /** The chunk behind a binned chunk is in use, so it is not the victim. */
  lemma UsedBehind(h: Heap, a: int)
    requires Good(h, {}) && a in h.ix.sizes
    ensures a + h.ix.sizes[a] != h.dv
  {
    hide Good;
    BinnedSize(h, {}, a);
    ReadNext(h, {}, a);
    VictimReads(h, {});
    ReadTags(h, {}, a + h.ix.sizes[a]);
  }

  lemma VictimNotTop(h: Heap)
    requires Good(h, {})
    ensures h.dv != 0 ==> h.dv != h.top && HEAP_START <= h.dv
  {
    hide Good;
    if h.dv != 0 {
      VictimReads(h, {});
      WhereFree(h, {}, h.dv);
      ReadTags(h, {}, h.dv);
    }
  }

  /** The state with the designated victim in hand instead. */
  function NoVictim(h: Heap): Heap { h.(dv := 0, dvsize := 0) }

  lemma AddDrop(s: set<int>, x: int)
    requires x !in s
    ensures s + {x} - {x} == s
  {
  }

  lemma VictimToHole(h: Heap, holes: set<int>)
    requires Good(h, holes) && h.dv != 0
    ensures Good(NoVictim(h), holes + {h.dv}) && h.dv !in holes
  {
    hide TagsOk, IndexOk, SegsOk, DomainOk, EndsOk;
    NoNull(h.m, h.cs);
  }

  lemma VictimFits(h: Heap, holes: set<int>)
    requires Good(h, holes) && h.dv != 0
    ensures h.dv in h.cs && h.cs[h.dv].size == h.dvsize && 0 <= h.dvsize && h.dvsize % 16 == 0
    ensures IndexOk(h.m, h.smallmap, h.treemap, h.ix) && CanAdd(h.m, h.ix, h.dv, h.dvsize)
  {
    hide Good, CanAdd, FreeSizes, IndexOk;
    VictimReads(h, holes);
    VictimToHole(h, holes);
    GoodIndex(h, holes);
    HoleFits(NoVictim(h), h.dv, holes + {h.dv});
  }

  /** The designated victim has been put in a bin. */
  lemma VictimBinned(h: Heap, h': Heap, holes: set<int>)
    requires Good(h, holes) && h.dv != 0 && IndexStep(NoVictim(h), NoVictim(h'))
    requires h'.ix.sizes == h.ix.sizes[h.dv := h.dvsize] && OnlyLinks(h.m, h'.m, h'.ix.sizes)
    ensures Good(NoVictim(h'), holes) && Untouched(h.m, h'.m, LiveOf(h.cs))
  {
    hide Good, IndexStep, OnlyLinks, Untouched;
    VictimReads(h, holes);
    VictimToHole(h, holes);
    AddDrop(holes, h.dv);
    InsertedGood(NoVictim(h), NoVictim(h'), h.dv, holes + {h.dv});
  }

  lemma HoleToVictim(h: Heap, holes: set<int>, a: int)
    requires Good(h, holes) && h.dv == 0 && a in holes
    ensures a in h.cs && Good(h.(dv := a, dvsize := h.cs[a].size), holes - {a})
  {
    hide TagsOk, IndexOk, SegsOk, DomainOk, EndsOk;
    NoNull(h.m, h.cs);
  }

  // ---------- runs of neighbouring chunks ----------

  /**
   The chunks that start in `inside` are exactly those from `lo` up to `hi`. None of them is in a bin or is the
   designated victim: an operation has the free ones in hand.
   */
  ghost predicate RunOk(h: Heap, lo: int, hi: int, inside: set<int>) {
    && lo in h.cs && hi in h.cs && lo < hi && Held(h.m, lo, hi)
    && lo % 16 == 0 && hi % 16 == 0
    && Run(h.cs, lo, hi) == inside
    && (forall a :: a in inside ==>
          && (h.cs[a].kind.Live? || h.cs[a].kind.Free? || h.cs[a].kind.Top?)
          && (lo < a ==> !h.cs[a].first)
          && a !in h.ix.sizes && (a == h.dv ==> h.dv == 0))
    && !h.cs[hi].first && !h.cs[hi].kind.Fence?
  }

  lemma RunOne(h: Heap, holes: set<int>, p: int)
    requires Good(h, holes) && p in h.cs
    requires h.cs[p].kind.Live? || h.cs[p].kind.Free? || h.cs[p].kind.Top?
    requires p !in h.ix.sizes && (p == h.dv ==> h.dv == 0)
    ensures RunOk(h, p, p + h.cs[p].size, {p})
  {
    hide Good;
    ReadTags(h, holes, p);
    ReadNext(h, holes, p);
    NoneInside(h, holes, p);
    ReadTags(h, holes, p + h.cs[p].size);
  }

  lemma RunJoin(h: Heap, lo: int, mid: int, hi: int, a: set<int>, b: set<int>)
    requires RunOk(h, lo, mid, a) && RunOk(h, mid, hi, b)
    ensures RunOk(h, lo, hi, a + b)
  {
    assert Run(h.cs, lo, hi) == Run(h.cs, lo, mid) + Run(h.cs, mid, hi);
    assert mid in b;
  }

  /** The chunk in use at `p` and, if it is free, its neighbour in hand behind it. */
  lemma RunRetile(h: Heap, lo: int, mid: int, hi: int, inside: set<int>, k1: Kind, k2: Kind)
    requires RunOk(h, lo, hi, inside) && lo < mid <= hi && mid % 16 == 0
    requires (k1.Live? || k1.Free? || k1.Top?) && KindOk(mid - lo, k1)
    requires k1.Free? || k1.Top? ==> mid == hi && h.cs[lo].pin
    requires mid < hi ==> (k2.Live? || k2.Free? || k2.Top?) && KindOk(hi - mid, k2)
    requires var last := if mid == hi then k1 else k2;
      && (last.Free? ==> Used(h.cs[hi].kind)) && (last.Top? <==> h.cs[hi].kind.Foot?)
      && (!Used(last) ==> !h.cs[hi].kind.Free? && !h.cs[hi].kind.Top?)
    ensures CanRetile(h.cs, lo, mid, hi, k1, k2) && Held(h.m, lo, hi)
    ensures forall a :: a in h.ix.sizes && a in h.cs ==> a < lo || a >= hi
    ensures h.dv in h.cs && h.dv != 0 ==> !(lo <= h.dv < hi)
  {
    hide KindOk;
    assert forall a :: a in h.cs && lo <= a < hi ==> a in inside;
  }

  /** What the tag writes of a step start from. */
  ghost predicate Ready(h: Heap, holes: set<int>, lo: int, mid: int, hi: int) {
    ReadyWords(h, lo, mid, hi) && ReadyPlaces(h, holes, lo, mid, hi)
  }

  ghost predicate ReadyWords(h: Heap, lo: int, mid: int, hi: int) {
    && lo in h.cs && hi in h.cs && HEAP_START <= lo
    && lo + HEAD in h.m && mid + HEAD in h.m && hi + HEAD in h.m && hi in h.m
    && Pinuse(h.m[lo + HEAD]) == h.cs[lo].pin
    && h.m[hi + HEAD] == HeadWord(h.cs[hi])
    && (!Ends(h.cs[hi].kind) ==>
          && SetPinuse(h.m[hi + HEAD]) == HeadWord(h.cs[hi].(pin := true))
          && ClearPinuse(h.m[hi + HEAD]) == HeadWord(h.cs[hi].(pin := false)))
  }

  ghost predicate ReadyPlaces(h: Heap, holes: set<int>, lo: int, mid: int, hi: int) {
    && (mid < hi ==> mid != h.dv)
    && (h.dv == 0 ==> h.dvsize == 0)
    && (h.dv != 0 ==> !(lo <= h.dv < hi))
    && h.dv !in holes
    && (lo <= h.top < hi ==> h.top in Run(h.cs, lo, hi))
    && (forall a :: a in h.ix.sizes ==> a < lo || a >= hi)
  }

  lemma RunReady(h: Heap, holes: set<int>, lo: int, mid: int, hi: int, inside: set<int>)
    requires Good(h, holes) && RunOk(h, lo, hi, inside) && lo < mid <= hi && mid % 16 == 0
    ensures Ready(h, holes, lo, mid, hi)
  {
    hide Good, RunOk, ReadyWords, ReadyPlaces;
    RunReadyWords(h, holes, lo, mid, hi, inside);
    RunReadyPlaces(h, holes, lo, mid, hi, inside);
  }

  lemma RunReadyWords(h: Heap, holes: set<int>, lo: int, mid: int, hi: int, inside: set<int>)
    requires Good(h, holes) && RunOk(h, lo, hi, inside) && lo < mid <= hi && mid % 16 == 0
    ensures ReadyWords(h, lo, mid, hi)
  {
    hide Good, KindOk, PinOk, Run;
    assert lo in h.cs && hi in h.cs && hi % 16 == 0 && Held(h.m, lo, hi);
    hide RunOk;
    ReadTags(h, holes, hi);
    ReadTags(h, holes, lo);
    assert mid < hi ==> mid + HEAD in h.m;
    hide Held;
    HeadOf(h, holes, hi);
    if !Ends(h.cs[hi].kind) {
      HeadFlags(h.cs[hi]);
    }
  }

  lemma HeadFlags(c: Chunk)
    requires 0 <= c.size && c.size % 16 == 0 && !Ends(c.kind)
    ensures SetPinuse(HeadWord(c)) == HeadWord(c.(pin := true))
    ensures ClearPinuse(HeadWord(c)) == HeadWord(c.(pin := false))
  {
    HeadRoundTrip(c.size, c.pin, Used(c.kind));
  }

  lemma RunReadyPlaces(h: Heap, holes: set<int>, lo: int, mid: int, hi: int, inside: set<int>)
    requires Good(h, holes) && RunOk(h, lo, hi, inside) && lo < mid <= hi && mid % 16 == 0
    ensures ReadyPlaces(h, holes, lo, mid, hi)
  {
    hide Good, Held;
    BinnedInCs(h, holes);
    NullIsNoHole(h, holes);
    ReadTags(h, holes, lo);
    assert forall a :: a in h.cs && lo <= a < hi ==> a in inside;
    if mid < hi {
      assert mid in h.cs ==> mid in inside;
      WhereMid(h, holes, mid);
    }
  }

  lemma WhereMid(h: Heap, holes: set<int>, a: int)
    requires Good(h, holes)
    ensures a !in h.cs ==> a !in holes && a !in h.ix.sizes && (a == h.dv ==> h.dv == 0)
  {
    hide TagsOk, IndexOk, SegsOk, DomainOk, EndsOk;
  }

  lemma NullIsNoHole(h: Heap, holes: set<int>)
    requires Good(h, holes)
    ensures 0 !in holes
  {
    hide TagsOk, IndexOk, SegsOk, DomainOk, EndsOk;
    NoNull(h.m, h.cs);
  }

  // ---------- the steps ----------

  function OneBlock(h: Heap, lo: int, hi: int, req: int): Heap {
    h.(m := SetInuse(h.m, lo, hi - lo), cs := Retile(h.cs, lo, hi, hi, Live(req), Live(req)))
  }

  /** A run becomes one block. */
  lemma UseRun(h: Heap, holes: set<int>, lo: int, hi: int, inside: set<int>, req: int)
    requires Good(h, holes) && RunOk(h, lo, hi, inside) && KindOk(hi - lo, Live(req))
    requires h.top !in inside && !h.cs[hi].kind.Foot?
    ensures lo + HEAD in h.m && hi + HEAD in h.m
    ensures Good(OneBlock(h, lo, hi, req), holes - inside)
    ensures LiveOf(OneBlock(h, lo, hi, req).cs) == (LiveOf(h.cs) - inside)[lo := Block(hi - lo, req)]
    ensures Untouched(h.m, OneBlock(h, lo, hi, req).m, LiveOf(h.cs) - inside)
  {
    hide Good, Untouched, Retile, LiveOf, KindOk;
    var k := Live(req);
    var h' := OneBlock(h, lo, hi, req);
    RunRetile(h, lo, hi, hi, inside, k, k);
    RunReady(h, holes, lo, hi, hi, inside);
    assert TagsWritten(h'.m, h.cs, lo, hi, hi, k, k) && Local(h.m, h'.m, lo, hi) by {
      hide CanRetile, RunOk;
      RetileKeys(h.cs, lo, hi, hi, k, k, lo);
    }
    assert VictimMoves(h, h', lo, hi, hi, k, k) && TopMoves(h, h', lo, hi, hi, k, k)
      && Loose(h'.dv, holes - inside) == (Loose(h.dv, holes) - Run(h.cs, lo, hi)) + NewFree(lo, hi, hi, k, k)
      && h'.dv !in (holes - inside) by {
      hide CanRetile, TagsWritten, Local, ReadyWords, Head, Held;
    }
    hide CanRetile, TagsWritten, Local, RunOk, ReadyWords, VictimMoves, TopMoves, Loose, NewFree;
    RetileLive(h.cs, lo, hi, hi, k, k);
    RetileGood(h, h', lo, hi, hi, k, k, holes, holes - inside);
  }

  function TwoBlocks(h: Heap, lo: int, mid: int, hi: int, r1: int, r2: int): Heap {
    h.(m := SetInuse(SetInuse(h.m, lo, mid - lo), mid, hi - mid), cs := Retile(h.cs, lo, mid, hi, Live(r1), Live(r2)))
  }

  /** A run becomes two blocks. */
  lemma CutRun(h: Heap, holes: set<int>, lo: int, mid: int, hi: int, inside: set<int>, r1: int, r2: int)
    requires Good(h, holes) && RunOk(h, lo, hi, inside) && lo < mid < hi && mid % 16 == 0
    requires KindOk(mid - lo, Live(r1)) && KindOk(hi - mid, Live(r2))
    requires h.top !in inside && !h.cs[hi].kind.Foot?
    ensures lo + HEAD in h.m && mid + HEAD in h.m && hi + HEAD in h.m
    ensures Good(TwoBlocks(h, lo, mid, hi, r1, r2), holes - inside)
    ensures LiveOf(TwoBlocks(h, lo, mid, hi, r1, r2).cs) ==
      (LiveOf(h.cs) - inside)[lo := Block(mid - lo, r1)][mid := Block(hi - mid, r2)]
    ensures Untouched(h.m, TwoBlocks(h, lo, mid, hi, r1, r2).m, LiveOf(h.cs) - inside)
  {
    hide Good, Untouched, Retile, LiveOf, KindOk;
    var k1, k2 := Live(r1), Live(r2);
    var h' := TwoBlocks(h, lo, mid, hi, r1, r2);
    RunRetile(h, lo, mid, hi, inside, k1, k2);
    RunReady(h, holes, lo, mid, hi, inside);
    assert TagsWritten(h'.m, h.cs, lo, mid, hi, k1, k2) && Local(h.m, h'.m, lo, hi) by {
      hide CanRetile, RunOk;
      RetileKeys(h.cs, lo, mid, hi, k1, k2, lo);
    }
    assert VictimMoves(h, h', lo, mid, hi, k1, k2) && TopMoves(h, h', lo, mid, hi, k1, k2)
      && Loose(h'.dv, holes - inside) == (Loose(h.dv, holes) - Run(h.cs, lo, hi)) + NewFree(lo, mid, hi, k1, k2)
      && h'.dv !in (holes - inside) by {
      hide CanRetile, TagsWritten, Local, ReadyWords, Head, Held;
    }
    hide CanRetile, TagsWritten, Local, RunOk, ReadyWords, VictimMoves, TopMoves, Loose, NewFree;
    RetileLive(h.cs, lo, mid, hi, k1, k2);
    RetileGood(h, h', lo, mid, hi, k1, k2, holes, holes - inside);
  }

  function BlockAndFree(h: Heap, lo: int, mid: int, hi: int, req: int): Heap {
    h.(m := SetSizeAndPinuseOfFreeChunk(SetInuse(h.m, lo, mid - lo), mid, hi - mid)
               [hi + HEAD := ClearPinuse(At(h.m, hi + HEAD))],
       cs := Retile(h.cs, lo, mid, hi, Live(req), Free))
  }

  lemma BlockAndFreeFields(h: Heap, lo: int, mid: int, hi: int, req: int)
    ensures var h' := BlockAndFree(h, lo, mid, hi, req);
      && h'.ix == h.ix && h'.smallmap == h.smallmap && h'.treemap == h.treemap && h'.segs == h.segs
      && h'.dv == h.dv && h'.dvsize == h.dvsize && h'.top == h.top && h'.topsize == h.topsize
  {
  }

  /** A run becomes a block and a free chunk in hand. */
  lemma SplitRun(h: Heap, holes: set<int>, lo: int, mid: int, hi: int, inside: set<int>, req: int)
    requires Good(h, holes) && RunOk(h, lo, hi, inside) && lo < mid < hi && mid % 16 == 0
    requires KindOk(mid - lo, Live(req)) && KindOk(hi - mid, Free)
    requires h.top !in inside && Used(h.cs[hi].kind)
    ensures lo + HEAD in h.m && mid + HEAD in h.m && hi + HEAD in h.m && hi in h.m
    ensures Good(BlockAndFree(h, lo, mid, hi, req), holes - inside + {mid})
    ensures mid in BlockAndFree(h, lo, mid, hi, req).cs && BlockAndFree(h, lo, mid, hi, req).cs[mid].size == hi - mid
    ensures LiveOf(BlockAndFree(h, lo, mid, hi, req).cs) == (LiveOf(h.cs) - inside)[lo := Block(mid - lo, req)]
    ensures Untouched(h.m, BlockAndFree(h, lo, mid, hi, req).m, LiveOf(h.cs) - inside)
  {
    hide Good, Untouched, Retile, LiveOf, KindOk;
    var k1, k2 := Live(req), Free;
    var h' := BlockAndFree(h, lo, mid, hi, req);
    RunRetile(h, lo, mid, hi, inside, k1, k2);
    RunReady(h, holes, lo, mid, hi, inside);
    RetileKeys(h.cs, lo, mid, hi, k1, k2, lo);
    RetileKeys(h.cs, lo, mid, hi, k1, k2, mid);
    SplitRunTags(h, lo, mid, hi, req);
    assert VictimMoves(h, h', lo, mid, hi, k1, k2) && TopMoves(h, h', lo, mid, hi, k1, k2)
      && Loose(h'.dv, holes - inside + {mid}) == (Loose(h.dv, holes) - Run(h.cs, lo, hi)) + NewFree(lo, mid, hi, k1, k2)
      && h'.dv !in (holes - inside + {mid}) by {
      hide CanRetile, TagsWritten, Local, ReadyWords, Head, Held;
    }
    hide CanRetile, TagsWritten, Local, RunOk, ReadyWords, VictimMoves, TopMoves, Loose, NewFree;
    RetileLive(h.cs, lo, mid, hi, k1, k2);
    RetileGood(h, h', lo, mid, hi, k1, k2, holes, holes - inside + {mid});
  }

  lemma SplitRunTags(h: Heap, lo: int, mid: int, hi: int, req: int)
    requires ReadyWords(h, lo, mid, hi) && CanRetile(h.cs, lo, mid, hi, Live(req), Free) && lo % 16 == 0 && mid < hi
    requires Used(h.cs[hi].kind) && hi % 16 == 0 && mid % 16 == 0
    ensures TagsWritten(BlockAndFree(h, lo, mid, hi, req).m, h.cs, lo, mid, hi, Live(req), Free)
    ensures Local(h.m, BlockAndFree(h, lo, mid, hi, req).m, lo, hi)
  {
    hide Retile, KindOk;
    RetileKeys(h.cs, lo, mid, hi, Live(req), Free, lo);
  }

  function BlockAndTop(h: Heap, lo: int, mid: int, hi: int, req: int): Heap {
    h.(m := SetInuse(h.m, lo, mid - lo)[mid + HEAD := Head(hi - mid, true, false)],
       cs := Retile(h.cs, lo, mid, hi, Live(req), Top), top := mid, topsize := hi - mid)
  }

  lemma BlockAndTopFields(h: Heap, lo: int, mid: int, hi: int, req: int)
    ensures var h' := BlockAndTop(h, lo, mid, hi, req);
      && h'.ix == h.ix && h'.smallmap == h.smallmap && h'.treemap == h.treemap && h'.segs == h.segs
      && h'.dv == h.dv && h'.dvsize == h.dvsize && h'.top == mid && h'.topsize == hi - mid
  {
  }

  /** A run that ends in top becomes a block and the rest of top. */
  lemma SplitTop(h: Heap, holes: set<int>, lo: int, mid: int, hi: int, inside: set<int>, req: int)
    requires Good(h, holes) && RunOk(h, lo, hi, inside) && lo < mid < hi && mid % 16 == 0
    requires KindOk(mid - lo, Live(req)) && h.top in inside && h.cs[hi].kind.Foot?
    ensures lo + HEAD in h.m && mid + HEAD in h.m
    ensures Good(BlockAndTop(h, lo, mid, hi, req), holes - inside)
    ensures LiveOf(BlockAndTop(h, lo, mid, hi, req).cs) == (LiveOf(h.cs) - inside)[lo := Block(mid - lo, req)]
    ensures Untouched(h.m, BlockAndTop(h, lo, mid, hi, req).m, LiveOf(h.cs) - inside)
  {
    hide Good, Untouched, Retile, LiveOf, KindOk, CanRetile, TagsWritten, Local, Held, VictimMoves, TopMoves, Loose,
         NewFree;
    var k1, k2 := Live(req), Top;
    var h' := BlockAndTop(h, lo, mid, hi, req);
    assert KindOk(hi - mid, Top) by { TopKind(hi - mid); }
    RunRetile(h, lo, mid, hi, inside, k1, k2);
    RunReady(h, holes, lo, mid, hi, inside);
    SplitTopTags(h, lo, mid, hi, req);
    assert Run(h.cs, lo, hi) == inside && lo > 0;
    hide RunOk, ReadyWords;
    SplitTopMoves(h, holes, lo, mid, hi, req);
    RetileLive(h.cs, lo, mid, hi, k1, k2);
    RetileGood(h, h', lo, mid, hi, k1, k2, holes, holes - inside);
  }

  lemma SplitTopMoves(h: Heap, holes: set<int>, lo: int, mid: int, hi: int, req: int)
    requires ReadyPlaces(h, holes, lo, mid, hi) && 0 < lo < mid < hi && h.top in Run(h.cs, lo, hi)
    ensures var h', holes' := BlockAndTop(h, lo, mid, hi, req), holes - Run(h.cs, lo, hi);
      && VictimMoves(h, h', lo, mid, hi, Live(req), Top) && TopMoves(h, h', lo, mid, hi, Live(req), Top)
      && Loose(h'.dv, holes') == (Loose(h.dv, holes) - Run(h.cs, lo, hi)) + NewFree(lo, mid, hi, Live(req), Top)
      && h'.dv !in holes'
  {
    hide Retile;
  }

  lemma SplitTopTags(h: Heap, lo: int, mid: int, hi: int, req: int)
    requires ReadyWords(h, lo, mid, hi) && CanRetile(h.cs, lo, mid, hi, Live(req), Top) && lo % 16 == 0 && lo < mid < hi
    requires h.cs[hi].kind.Foot? && hi % 16 == 0 && mid % 16 == 0
    ensures TagsWritten(BlockAndTop(h, lo, mid, hi, req).m, h.cs, lo, mid, hi, Live(req), Top)
    ensures Local(h.m, BlockAndTop(h, lo, mid, hi, req).m, lo, hi)
  {
    hide Retile, CanRetile, KindOk;
    RetileKeys(h.cs, lo, mid, hi, Live(req), Top, lo);
  }

  lemma TopKind(size: int)
    requires 0 < size && size % 16 == 0
    ensures KindOk(size, Top)
  {
  }

  function FreedRun(h: Heap, lo: int, hi: int): Heap {
    h.(m := SetFreeWithPinuse(h.m, lo, hi - lo, hi), cs := Retile(h.cs, lo, hi, hi, Free, Free))
  }

  /** A run becomes one free chunk in hand. */
  lemma FreeRun(h: Heap, holes: set<int>, lo: int, hi: int, inside: set<int>)
    requires Good(h, holes) && RunOk(h, lo, hi, inside) && KindOk(hi - lo, Free)
    requires h.cs[lo].pin && Used(h.cs[hi].kind) && h.top !in inside
    ensures lo + HEAD in h.m && hi + HEAD in h.m && hi in h.m
    ensures Good(FreedRun(h, lo, hi), holes - inside + {lo})
    ensures lo in FreedRun(h, lo, hi).cs && FreedRun(h, lo, hi).cs[lo].size == hi - lo
    ensures LiveOf(FreedRun(h, lo, hi).cs) == LiveOf(h.cs) - inside
    ensures Untouched(h.m, FreedRun(h, lo, hi).m, LiveOf(h.cs) - inside)
  {
    hide Good, Untouched, Retile, LiveOf, KindOk;
    var h' := FreedRun(h, lo, hi);
    RunRetile(h, lo, hi, hi, inside, Free, Free);
    RunReady(h, holes, lo, hi, hi, inside);
    RetileKeys(h.cs, lo, hi, hi, Free, Free, lo);
    assert lo in inside;
    assert TagsWritten(h'.m, h.cs, lo, hi, hi, Free, Free) && Local(h.m, h'.m, lo, hi) by {
      hide CanRetile, RunOk;
    }
    assert VictimMoves(h, h', lo, hi, hi, Free, Free) && TopMoves(h, h', lo, hi, hi, Free, Free)
      && Loose(h'.dv, holes - inside + {lo})
           == (Loose(h.dv, holes) - Run(h.cs, lo, hi)) + NewFree(lo, hi, hi, Free, Free)
      && h'.dv !in (holes - inside + {lo}) by {
      hide CanRetile, TagsWritten, Local, ReadyWords, Head, Held;
    }
    hide CanRetile, TagsWritten, Local, RunOk, ReadyWords, VictimMoves, TopMoves, Loose, NewFree;
    RetileLive(h.cs, lo, hi, hi, Free, Free);
    RetileGood(h, h', lo, hi, hi, Free, Free, holes, holes - inside + {lo});
  }

  function TopRun(h: Heap, lo: int, hi: int): Heap {
    h.(m := h.m[lo + HEAD := Head(hi - lo, true, false)],
       cs := Retile(h.cs, lo, hi, hi, Top, Top), top := lo, topsize := hi - lo)
  }

  /** A run that ends in top becomes top. */
  lemma FreeIntoTop(h: Heap, holes: set<int>, lo: int, hi: int, inside: set<int>)
    requires Good(h, holes) && RunOk(h, lo, hi, inside)
    requires h.cs[lo].pin && h.cs[hi].kind.Foot? && h.top in inside
    ensures lo + HEAD in h.m
    ensures Good(TopRun(h, lo, hi), holes - inside)
    ensures LiveOf(TopRun(h, lo, hi).cs) == LiveOf(h.cs) - inside
    ensures Untouched(h.m, TopRun(h, lo, hi).m, LiveOf(h.cs) - inside)
  {
    hide Good, Untouched, Retile, LiveOf, KindOk;
    var h' := TopRun(h, lo, hi);
    TopKind(hi - lo);
    RunRetile(h, lo, hi, hi, inside, Top, Top);
    RunReady(h, holes, lo, hi, hi, inside);
    assert TagsWritten(h'.m, h.cs, lo, hi, hi, Top, Top) && Local(h.m, h'.m, lo, hi) by {
      hide CanRetile, RunOk;
      RetileKeys(h.cs, lo, hi, hi, Top, Top, lo);
    }
    assert VictimMoves(h, h', lo, hi, hi, Top, Top) && TopMoves(h, h', lo, hi, hi, Top, Top)
      && Loose(h'.dv, holes - inside) == (Loose(h.dv, holes) - Run(h.cs, lo, hi)) + NewFree(lo, hi, hi, Top, Top)
      && h'.dv !in (holes - inside) by {
      hide CanRetile, TagsWritten, Local, ReadyWords, Head, Held;
    }
    hide CanRetile, TagsWritten, Local, RunOk, ReadyWords, VictimMoves, TopMoves, Loose, NewFree;
    RetileLive(h.cs, lo, hi, hi, Top, Top);
    RetileGood(h, h', lo, hi, hi, Top, Top, holes, holes - inside);
  }

  lemma NotLive(cs: map<int, Chunk>, p: int)
    requires p in cs && !cs[p].kind.Live?
    ensures LiveOf(cs) - {p} == LiveOf(cs) && p !in LiveOf(cs)
  {
  }

  lemma HeadOf(h: Heap, holes: set<int>, a: int)
    requires Good(h, holes) && a in h.cs
    ensures a + HEAD in h.m && h.m[a + HEAD] == HeadWord(h.cs[a]) && KindOk(h.cs[a].size, h.cs[a].kind)
    ensures PinOk(h.cs[a])
  {
    hide TagsOk, IndexOk, PartsOk, SegsOk, DomainOk, EndsOk, NextOk, PrevOk;
    ChunkAt(h.m, h.cs, a);
  }

  // ---------- taking a free chunk that is in hand ----------

  /** What is known about a free chunk in hand and the chunk behind it. */
  ghost predicate HoleReads(h: Heap, p: int) {
    && p in h.cs && h.cs[p].kind.Free? && h.cs[p].pin && h.top != p && p != 0 && p !in LiveOf(h.cs)
    && MIN_CHUNK_SIZE <= h.cs[p].size
    && TagReads(h.m, p, h.cs[p])
    && var n := p + h.cs[p].size; n in h.cs && Used(h.cs[n].kind) && !h.cs[n].pin && TagReads(h.m, n, h.cs[n])
  }

  lemma HoleRun(h: Heap, holes: set<int>, p: int)
    requires Good(h, holes) && p in holes && p in h.cs
    ensures RunOk(h, p, p + h.cs[p].size, {p}) && HoleReads(h, p)
  {
    hide Good, LiveOf, RunOk;
    BinnedInCs(h, holes);
    NullIsNoHole(h, holes);
    RunOne(h, holes, p);
    HeadOf(h, holes, p);
    ReadTags(h, holes, p);
    ReadNext(h, holes, p);
    ReadTags(h, holes, p + h.cs[p].size);
    NotLive(h.cs, p);
  }

  /** The chunk before `p` is in use, as the flag of `p` says. */
  predicate Pinned(cs: map<int, Chunk>, p: int) { p in cs && cs[p].pin }

  lemma RetilePinned(cs: map<int, Chunk>, lo: int, mid: int, hi: int, k1: Kind, k2: Kind)
    requires Pinned(cs, lo) && lo < mid <= hi
    ensures Pinned(Retile(cs, lo, mid, hi, k1, k2), lo)
  {
  }

  function WholeTaken(h: Heap, p: int, s: int, req: int): Heap {
    h.(m := SetInuseAndPinuse(h.m, p, s), cs := Retile(h.cs, p, p + s, p + s, Live(req), Live(req)))
  }

  /** A free chunk in hand is handed out whole. */
  lemma TakeWhole(h: Heap, holes: set<int>, p: int, s: int, req: int)
    requires Good(h, holes) && p in holes && p in h.cs && s == h.cs[p].size && KindOk(s, Live(req))
    ensures p + HEAD in h.m && p + s + HEAD in h.m
    ensures Good(WholeTaken(h, p, s, req), holes - {p})
    ensures LiveOf(WholeTaken(h, p, s, req).cs) == LiveOf(h.cs)[p := Block(s, req)] && p !in LiveOf(h.cs)
    ensures Untouched(h.m, WholeTaken(h, p, s, req).m, LiveOf(h.cs))
    ensures Pinned(WholeTaken(h, p, s, req).cs, p)
  {
    hide Good, LiveOf, RunOk, Untouched, Retile, KindOk;
    HoleRun(h, holes, p);
    RetilePinned(h.cs, p, p + s, p + s, Live(req), Live(req));
    assert SetInuseAndPinuse(h.m, p, s) == SetInuse(h.m, p, s);
    assert LiveOf(h.cs) - {p} == LiveOf(h.cs);
    UseRun(h, holes, p, p + s, {p}, req);
  }

  function SplitTaken(h: Heap, p: int, nb: int, s: int, req: int): Heap {
    h.(m := SetSizeAndPinuseOfFreeChunk(SetSizeAndPinuseOfInuseChunk(h.m, p, nb), p + nb, s - nb),
       cs := Retile(h.cs, p, p + nb, p + s, Live(req), Free))
  }

  /** A free chunk in hand is split: the front is handed out, the rest stays free and in hand. */
  lemma TakeSplit(h: Heap, holes: set<int>, p: int, nb: int, s: int, req: int)
    requires Good(h, holes) && p in holes && p in h.cs && s == h.cs[p].size
    requires KindOk(nb, Live(req)) && KindOk(s - nb, Free)
    ensures p + HEAD in h.m && p + nb + HEAD in h.m && p + s in h.m
    ensures Good(SplitTaken(h, p, nb, s, req), holes - {p} + {p + nb})
    ensures p + nb in SplitTaken(h, p, nb, s, req).cs && SplitTaken(h, p, nb, s, req).cs[p + nb].size == s - nb
    ensures LiveOf(SplitTaken(h, p, nb, s, req).cs) == LiveOf(h.cs)[p := Block(nb, req)] && p !in LiveOf(h.cs)
    ensures Untouched(h.m, SplitTaken(h, p, nb, s, req).m, LiveOf(h.cs))
    ensures Pinned(SplitTaken(h, p, nb, s, req).cs, p)
  {
    hide Good, LiveOf, RunOk, Untouched, Retile;
    HoleRun(h, holes, p);
    RetilePinned(h.cs, p, p + nb, p + s, Live(req), Free);
    assert LiveOf(h.cs) - {p} == LiveOf(h.cs);
    SplitRun(h, holes, p, p + nb, p + s, {p}, req);
    assert SplitTaken(h, p, nb, s, req).m == BlockAndFree(h, p, p + nb, p + s, req).m by {
      hide KindOk;
      SplitForm(h.m, p, nb, s);
    }
  }

  lemma SplitForm(m: Mem, p: int, nb: int, s: int)
    requires p % 16 == 0 && nb % 16 == 0 && s % 16 == 0 && 0 < nb < s
    requires p + HEAD in m && p + nb + HEAD in m && p + s in m && p + s + HEAD in m
    requires Pinuse(m[p + HEAD]) && !Pinuse(m[p + s + HEAD])
    ensures SetSizeAndPinuseOfFreeChunk(SetSizeAndPinuseOfInuseChunk(m, p, nb), p + nb, s - nb)
         == SetSizeAndPinuseOfFreeChunk(SetInuse(m, p, nb), p + nb, s - nb)
              [p + s + HEAD := ClearPinuse(At(m, p + s + HEAD))]
  {
  }

  // ---------- requests ----------

  /** A padded size for a request, with enough slack for every splitting decision to stay within `validate_size`. */
  predicate Fits(req: int, nb: int) {
    && 0 <= req && nb % 16 == 0 && MIN_CHUNK_SIZE <= nb
    && req + CHUNK_OVERHEAD <= nb && nb + MIN_CHUNK_SIZE <= req + MAX_OVERHEAD
  }

  lemma Request2SizeFits(req: int)
    requires 0 <= req
    ensures Fits(req, Request2Size(req))
  {
    RequestFits(req);
  }

  lemma FitsPositive(req: int, nb: int)
    requires Fits(req, nb)
    ensures nb >= MIN_CHUNK_SIZE && nb % 16 == 0 && req >= 0
  {
  }

  lemma FitsKind(req: int, nb: int, size: int)
    requires Fits(req, nb) && nb <= size <= nb + MIN_CHUNK_SIZE && size % 16 == 0
    ensures KindOk(size, Live(req))
  {
  }

  lemma FreeKind(size: int)
    requires MIN_CHUNK_SIZE <= size && size % 16 == 0
    ensures KindOk(size, Free)
  {
  }

  /**
   A new block of `nb` to `nb + 31` bytes for the request, behind a chunk in use; nothing else has changed for anyone.
   */
  ghost predicate Allocated(h: Heap, h': Heap, p: int, req: int, nb: int) {
    && p in LiveOf(h'.cs) && p !in LiveOf(h.cs) && p % 16 == 0 && HEAP_START <= p
    && LiveOf(h'.cs)[p].req == req && nb <= LiveOf(h'.cs)[p].size < nb + MIN_CHUNK_SIZE && Pinned(h'.cs, p)
    && LiveOf(h'.cs) == LiveOf(h.cs)[p := LiveOf(h'.cs)[p]]
    && Untouched(h.m, h'.m, LiveOf(h.cs))
  }

  /** Steps that only move free chunks around before a block is made do not show. */
  lemma AllocatedLater(h: Heap, h1: Heap, h2: Heap, p: int, req: int, nb: int, s: int)
    requires LiveOf(h1.cs) == LiveOf(h.cs) && Untouched(h.m, h1.m, LiveOf(h.cs))
    requires LiveOf(h2.cs) == LiveOf(h1.cs)[p := Block(s, req)] && p !in LiveOf(h1.cs)
    requires Untouched(h1.m, h2.m, LiveOf(h1.cs))
    requires nb <= s < nb + MIN_CHUNK_SIZE && p % 16 == 0 && HEAP_START <= p && Pinned(h2.cs, p)
    ensures Allocated(h, h2, p, req, nb)
  {
    UntouchedTrans(h.m, h1.m, h2.m, LiveOf(h.cs));
  }

  /** A step that makes one block. */
  lemma AllocatedBy(h: Heap, h': Heap, p: int, req: int, nb: int, s: int)
    requires LiveOf(h'.cs) == LiveOf(h.cs)[p := Block(s, req)] && p !in LiveOf(h.cs)
    requires Untouched(h.m, h'.m, LiveOf(h.cs)) && Pinned(h'.cs, p)
    requires nb <= s < nb + MIN_CHUNK_SIZE && p % 16 == 0 && HEAP_START <= p
    ensures Allocated(h, h', p, req, nb)
  {
    hide Untouched, LiveOf;
  }

  lemma AllocatedThen(h: Heap, h1: Heap, h2: Heap, p: int, req: int, nb: int)
    requires Allocated(h, h1, p, req, nb)
    requires h2.cs == h1.cs && Untouched(h1.m, h2.m, LiveOf(h1.cs))
    ensures Allocated(h, h2, p, req, nb)
  {
    UntouchedFewer(h1.m, h2.m, LiveOf(h1.cs), LiveOf(h.cs));
    UntouchedTrans(h.m, h1.m, h2.m, LiveOf(h.cs));
  }

  lemma AllocatedHasTop(h: Heap, h': Heap, p: int, req: int, nb: int)
    requires Allocated(h, h', p, req, nb) && Good(h', {})
    ensures h'.segs != []
  {
    hide TagsOk, IndexOk, SegsOk, DomainOk, EndsOk;
    assert p in h'.cs;
  }

  lemma AllocatedNew(h: Heap, h': Heap, p: int, req: int, nb: int)
    requires Allocated(h, h', p, req, nb)
    ensures p !in LiveOf(h.cs)
  {
  }

  lemma AllocatedAt(h: Heap, h': Heap, p: int, req: int, nb: int)
    requires Allocated(h, h', p, req, nb)
    ensures HEAP_START <= p
  {
  }

  lemma AllocatedAfter(h: Heap, h1: Heap, h2: Heap, p: int, req: int, nb: int)
    requires LiveOf(h1.cs) == LiveOf(h.cs) && Untouched(h.m, h1.m, LiveOf(h.cs))
    requires Allocated(h1, h2, p, req, nb)
    ensures Allocated(h, h2, p, req, nb)
  {
    UntouchedTrans(h.m, h1.m, h2.m, LiveOf(h.cs));
  }

  lemma UntouchedSelf(h: Heap, holes: set<int>)
    requires Good(h, holes)
    ensures Untouched(h.m, h.m, LiveOf(h.cs))
  {
    hide IndexOk, PartsOk, SegsOk, DomainOk, EndsOk;
    forall a | a in LiveOf(h.cs)
      ensures SamePayload(h.m, h.m, a, LiveOf(h.cs)[a].size)
    {
      hide Good;
      PayloadHeld(h, holes, a);
    }
  }

  lemma GoodTags(h: Heap, holes: set<int>)
    requires Good(h, holes)
    ensures TagsOk(h.m, h.cs) && IndexOk(h.m, h.smallmap, h.treemap, h.ix)
  {
  }

  lemma GoodIndex(h: Heap, holes: set<int>)
    requires Good(h, holes)
    ensures IndexOk(h.m, h.smallmap, h.treemap, h.ix)
  {
  }

  lemma PayloadHeld(h: Heap, holes: set<int>, a: int)
    requires Good(h, holes) && a in h.cs && h.cs[a].kind.Live?
    ensures Held(h.m, a, a + h.cs[a].size + WORD_BYTES)
  {
    hide Good;
    ReadTags(h, holes, a);
    ReadNext(h, holes, a);
    ReadTags(h, holes, a + h.cs[a].size);
  }

  // ---------- the designated victim and top as sources of memory ----------

  /** Lines 402-407 */
  function VictimSplit(h: Heap, nb: int, req: int): Heap {
    var r, rsize := h.dv + nb, h.dvsize - nb;
    h.(m := SetSizeAndPinuseOfInuseChunk(SetSizeAndPinuseOfFreeChunk(h.m, r, rsize), h.dv, nb),
       cs := SplitTaken(h, h.dv, nb, h.dvsize, req).cs, dv := r, dvsize := rsize)
  }

  lemma SplitVictim(h: Heap, nb: int, req: int)
    requires Good(h, {}) && Fits(req, nb) && nb + MIN_CHUNK_SIZE <= h.dvsize
    ensures Good(VictimSplit(h, nb, req), {}) && Allocated(h, VictimSplit(h, nb, req), h.dv, req, nb)
  {
    hide Good, Allocated, Untouched, LiveOf, KindOk, Retile, HeadWord, Size, Pinuse, Cinuse, InuseBits, SplitTaken,
         VictimSplit;
    var p, s := h.dv, h.dvsize;
    var h1 := NoVictim(h);
    VictimReads(h, {});
    VictimToHole(h, {});
    assert {} + {p} == {p} && {p} - {p} + {p + nb} == {p + nb} && {p + nb} - {p + nb} == {};
    ReadTags(h, {}, p);
    FitsKind(req, nb, nb);
    FreeKind(s - nb);
    FitsPositive(req, nb);
    TakeSplit(h1, {p}, p, nb, s, req);
    VictimSplitIs(h, nb, req);
    HoleToVictim(SplitTaken(h1, p, nb, s, req), {p + nb}, p + nb);
    AllocatedBy(h, VictimSplit(h, nb, req), p, req, nb, nb);
  }

  /** Here, too, the order of the writes does not matter. */
  lemma VictimSplitIs(h: Heap, nb: int, req: int)
    requires MIN_CHUNK_SIZE <= nb < h.dvsize
    ensures VictimSplit(h, nb, req)
         == SplitTaken(NoVictim(h), h.dv, nb, h.dvsize, req).(dv := h.dv + nb, dvsize := h.dvsize - nb)
    ensures SplitTaken(NoVictim(h), h.dv, nb, h.dvsize, req).dv == 0
  {
    hide Retile;
  }

  /** Lines 408-412 */
  function VictimWhole(h: Heap, req: int): Heap {
    NoVictim(WholeTaken(h, h.dv, h.dvsize, req))
  }

  lemma UseVictim(h: Heap, nb: int, req: int)
    requires Good(h, {}) && Fits(req, nb) && nb <= h.dvsize < nb + MIN_CHUNK_SIZE
    ensures Good(VictimWhole(h, req), {}) && Allocated(h, VictimWhole(h, req), h.dv, req, nb)
  {
    hide Good, Allocated, Untouched, LiveOf, KindOk, Retile, HeadWord;
    var p, s := h.dv, h.dvsize;
    VictimReads(h, {});
    VictimToHole(h, {});
    assert {} + {p} == {p} && {p} - {p} == {};
    ReadTags(h, {}, p);
    FitsKind(req, nb, s);
    TakeWhole(NoVictim(h), {p}, p, s, req);
    hide TagReads;
    AllocatedBy(h, VictimWhole(h, req), p, req, nb, s);
  }

  /** Lines 422-428 */
  function TopSplit(h: Heap, nb: int, req: int): Heap {
    var r, rsize := h.top + nb, h.topsize - nb;
    h.(m := SetSizeAndPinuseOfInuseChunk(h.m[r + HEAD := Head(rsize, true, false)], h.top, nb),
       cs := BlockAndTop(h, h.top, r, h.top + h.topsize, req).cs, top := r, topsize := rsize)
  }

  lemma UseTop(h: Heap, nb: int, req: int)
    requires Good(h, {}) && Fits(req, nb) && nb < h.topsize
    ensures Good(TopSplit(h, nb, req), {}) && Allocated(h, TopSplit(h, nb, req), h.top, req, nb)
  {
    hide Good, Allocated, Untouched, LiveOf, KindOk, Retile, HeadWord, RunOk, Size, Pinuse, Cinuse, InuseBits, TopSplit,
         SetSizeAndPinuseOfInuseChunk;
    var p, s := h.top, h.topsize;
    BinnedInCs(h, {});
    WhereFree(h, {}, p);
    ReadTags(h, {}, p);
    ReadNext(h, {}, p);
    RunOne(h, {}, p);
    HeadOf(h, {}, p);
    FitsKind(req, nb, nb);
    NotLive(h.cs, p);
    SplitTop(h, {}, p, p + nb, p + s, {p}, req);
    assert {} - {p} == {};
    TopSplitIs(h, nb, req);
    RetilePinned(h.cs, p, p + nb, p + s, Live(req), Top);
    AllocatedBy(h, TopSplit(h, nb, req), p, req, nb, nb);
  }

  /** The order of the two writes does not matter. */
  lemma TopSplitIs(h: Heap, nb: int, req: int)
    requires h.top + HEAD in h.m && h.top + nb + HEAD in h.m && Pinuse(h.m[h.top + HEAD]) && nb > 0
    ensures TopSplit(h, nb, req) == BlockAndTop(h, h.top, h.top + nb, h.top + h.topsize, req)
  {
    hide Retile;
  }

  /** No block the port hands out looks directly mapped, so the branches for such chunks are never taken. */
  lemma LiveNotMmapped(h: Heap, p: int)
    requires Good(h, {}) && p in h.cs && h.cs[p].kind.Live?
    ensures p + HEAD in h.m && !Mmapped(h.m[p + HEAD])
  {
    hide Good;
    ReadTags(h, {}, p);
  }
}
