/**
 `ialloc` of src/dlmalloc.c: one large block is cut into the elements and, unless the caller brings one, an array of
 pointers to them. Each is a block like any other afterwards.
 */
module Independent {
  import opened Words
  import opened Memory
  import opened Tiling
  import opened HeapState
  import opened HeapOps
  import opened Freeing
  import opened Frames
  import opened Prepending
  import opened Resizing

  // ---------- where the elements go ----------

  /** The request for element `i`: with `same`, all elements are of the first size. */
  function SizeFor(sizes: seq<int>, same: bool, i: int): int {
    var k := if same then 0 else i;
    if 0 <= k < |sizes| then sizes[k] else 0
  }

  function ElementSize(sizes: seq<int>, same: bool, i: int): int { Request2Size(SizeFor(sizes, same, i)) }

  /** The elements before element `i` take this many bytes. */
  function Offset(sizes: seq<int>, same: bool, i: int): int
    decreases i
  {
    if i <= 0 then 0 else Offset(sizes, same, i - 1) + ElementSize(sizes, same, i - 1)
  }

  predicate NonNegative(sizes: seq<int>) { forall k :: 0 <= k < |sizes| ==> sizes[k] >= 0 }

  lemma ElementFits(sizes: seq<int>, same: bool, i: int)
    requires NonNegative(sizes)
    ensures Fits(SizeFor(sizes, same, i), ElementSize(sizes, same, i))
  {
    Request2SizeFits(SizeFor(sizes, same, i));
  }

  /** The two ways `ialloc` gets at the size of an element. */
  lemma SizeIs(sizes: seq<int>, same: bool, i: int)
    requires if same then |sizes| >= 1 else 0 <= i < |sizes|
    requires NonNegative(sizes)
    ensures ElementSize(sizes, same, i) == (if same then ElementSize(sizes, same, 0) else Request2Size(sizes[i])) > 0
  {
    ElementFits(sizes, same, i);
  }

  lemma OffsetStep(sizes: seq<int>, same: bool, i: int)
    requires 0 <= i
    ensures Offset(sizes, same, i + 1) == Offset(sizes, same, i) + ElementSize(sizes, same, i)
  {
  }

  lemma {:induction false} OffsetGrows(sizes: seq<int>, same: bool, i: int, j: int)
    requires NonNegative(sizes) && 0 <= i <= j
    ensures Offset(sizes, same, i) + MIN_CHUNK_SIZE * (j - i) <= Offset(sizes, same, j)
    ensures Offset(sizes, same, i) % 16 == 0
    decreases j
  {
    hide ElementSize, Fits;
    if i < j {
      OffsetGrows(sizes, same, i, j - 1);
      ElementFits(sizes, same, j - 1);
      FitsPositive(SizeFor(sizes, same, j - 1), ElementSize(sizes, same, j - 1));
    } else if i > 0 {
      OffsetGrows(sizes, same, i - 1, i - 1);
      ElementFits(sizes, same, i - 1);
      FitsPositive(SizeFor(sizes, same, i - 1), ElementSize(sizes, same, i - 1));
    }
  }

  /** Elements of one size follow each other at that distance. */
  lemma {:induction false} SameOffset(sizes: seq<int>, n: int)
    requires 0 <= n
    ensures Offset(sizes, true, n) == n * ElementSize(sizes, true, 0)
    decreases n
  {
    if n > 0 {
      SameOffset(sizes, n - 1);
      assert ElementSize(sizes, true, n - 1) == ElementSize(sizes, true, 0);
    }
  }

  /** The chunks of the first `i` elements. */
  ghost function ElementStarts(p: int, sizes: seq<int>, same: bool, i: int): set<int> {
    set j | 0 <= j < i :: p + Offset(sizes, same, j)
  }

  lemma StartsNext(p: int, sizes: seq<int>, same: bool, i: int)
    requires 0 <= i
    ensures ElementStarts(p, sizes, same, i + 1) == ElementStarts(p, sizes, same, i) + {p + Offset(sizes, same, i)}
  {
    hide Offset;
    forall a | a in ElementStarts(p, sizes, same, i + 1)
      ensures a in ElementStarts(p, sizes, same, i) || a == p + Offset(sizes, same, i)
    {
      var j :| 0 <= j < i + 1 && a == p + Offset(sizes, same, j);
    }
  }

  lemma StartsBelow(p: int, sizes: seq<int>, same: bool, i: int)
    requires NonNegative(sizes) && 0 <= i
    ensures forall a :: a in ElementStarts(p, sizes, same, i) ==> p <= a < p + Offset(sizes, same, i)
  {
    hide Offset;
    forall a | a in ElementStarts(p, sizes, same, i)
      ensures p <= a < p + Offset(sizes, same, i)
    {
      var j :| 0 <= j < i && a == p + Offset(sizes, same, j);
      OffsetGrows(sizes, same, j, i);
      OffsetGrows(sizes, same, 0, j);
      assert Offset(sizes, same, 0) == 0 by { OffsetZero(sizes, same); }
    }
  }

  lemma OffsetZero(sizes: seq<int>, same: bool)
    ensures Offset(sizes, same, 0) == 0
  {
  }

  // ---------- one cut ----------

  /** The block at `q` has been cut at `mid`, by writing the heads of both parts with both in-use bits set. */
  ghost predicate CutAt(h: Heap, h': Heap, q: int, mid: int, hi: int, r1: int, r2: int) {
    && Good(h', {}) && h' == h.(m := h'.m, cs := h'.cs)
    && q in LiveOf(h.cs) && mid !in LiveOf(h.cs)
    && LiveOf(h'.cs) == (LiveOf(h.cs) - {q})[q := Block(mid - q, r1)][mid := Block(hi - mid, r2)]
    && Untouched(h.m, h'.m, LiveOf(h.cs) - {q})
    && Pinned(h'.cs, q) && Pinned(h'.cs, mid)
    && (forall a :: Pinned(h.cs, a) && (a < q || a >= hi) ==> Pinned(h'.cs, a))
    && h'.m == h.m[q + HEAD := Head(mid - q, true, true)][mid + HEAD := Head(hi - mid, true, true)]
  }

  lemma CutOff(h: Heap, q: int, mid: int, hi: int, r1: int, r2: int)
    requires Good(h, {}) && Pinned(h.cs, q) && h.cs[q].kind.Live? && hi == q + h.cs[q].size
    requires q < mid < hi && mid % 16 == 0 && KindOk(mid - q, Live(r1)) && KindOk(hi - mid, Live(r2))
    ensures CutAt(h, TwoBlocks(h, q, mid, hi, r1, r2), q, mid, hi, r1, r2)
    ensures q + HEAD in h.m && mid + HEAD in h.m
  {
    hide Good, RunOk, Untouched, LiveOf, KindOk, Retile, HeadWord, Pinuse, Cinuse, Size, InuseBits, SetInuse;
    BlockRun(h, {}, q);
    ReadTags(h, {}, q);
    ReadNext(h, {}, q);
    ReadTags(h, {}, hi);
    HeadOf(h, {}, hi);
    ReadBehind(h, q);
    CutRun(h, {}, q, mid, hi, {q}, r1, r2);
    assert {} - {q} == {};
    NothingBetween(h, q, mid);
    InLive(h, q);
    CutPins(h.cs, q, mid, hi, r1, r2);
    CutHeads(h.m, q, mid, hi);
  }

  lemma InLive(h: Heap, q: int)
    requires q in h.cs && h.cs[q].kind.Live?
    ensures q in LiveOf(h.cs)
  {
  }

  lemma CutPins(cs: map<int, Chunk>, q: int, mid: int, hi: int, r1: int, r2: int)
    requires Pinned(cs, q) && hi in cs && q < mid < hi
    ensures var cs' := Retile(cs, q, mid, hi, Live(r1), Live(r2));
      && Pinned(cs', q) && Pinned(cs', mid) && forall a :: Pinned(cs, a) && (a < q || a >= hi) ==> Pinned(cs', a)
  {
  }

  lemma CutHeads(m: Mem, q: int, mid: int, hi: int)
    requires q + HEAD in m && mid + HEAD in m && hi + HEAD in m && q < mid < hi
    requires Pinuse(m[q + HEAD]) && Pinuse(m[hi + HEAD])
    ensures SetInuse(SetInuse(m, q, mid - q), mid, hi - mid)
         == m[q + HEAD := Head(mid - q, true, true)][mid + HEAD := Head(hi - mid, true, true)]
  {
    hide Pinuse;
    SetPinuseSets(At(m[q + HEAD := Head(mid - q, true, true)], mid + HEAD));
    var m1 := SetInuse(m, q, mid - q);
    assert m1[hi + HEAD] == m[hi + HEAD];
    assert SetPinuse(m[hi + HEAD]) == m[hi + HEAD];
  }

  lemma SetPinuseSets(head: int)
    ensures Pinuse(SetPinuse(head))
  {
  }

  // ---------- the state between cuts ----------

  ghost predicate ElementOk(h: Heap, a: int, size: int, req: int) {
    a in LiveOf(h.cs) && LiveOf(h.cs)[a] == Block(size, req) && Pinned(h.cs, a)
  }

  /** The block at `q` is what is left to cut, up to `hi`. */
  ghost predicate RestOk(h: Heap, q: int, hi: int) {
    q in LiveOf(h.cs) && q + LiveOf(h.cs)[q].size == hi && Pinned(h.cs, q)
  }

  /**
   The first `i` elements have been cut from the block at `p`; what is left up to `hi` is one block. `before` are the
   blocks of everyone else, and nobody's bytes have changed since `m0`.
   */
  ghost predicate CutUpTo(m0: Mem, live0: map<int, Block>, h: Heap, before: map<int, Block>, p: int, hi: int,
                          sizes: seq<int>, same: bool, i: int)
  {
    var q := p + Offset(sizes, same, i);
    && Good(h, {}) && q < hi && RestOk(h, q, hi)
    && (forall j :: 0 <= j < i ==>
          ElementOk(h, p + Offset(sizes, same, j), ElementSize(sizes, same, j), SizeFor(sizes, same, j)))
    && (LiveOf(h.cs) - ElementStarts(p, sizes, same, i)) - {q} == before
    && Untouched(m0, h.m, live0)
    && (forall a :: a in live0 ==> a in before && before[a].size == live0[a].size)
  }

  lemma CutNext(m0: Mem, live0: map<int, Block>, h: Heap, before: map<int, Block>, p: int, hi: int, sizes: seq<int>,
                same: bool, i: int)
    requires CutUpTo(m0, live0, h, before, p, hi, sizes, same, i) && 0 <= i && NonNegative(sizes)
    requires p + Offset(sizes, same, i + 1) + MIN_CHUNK_SIZE <= hi
    ensures var q, mid := p + Offset(sizes, same, i), p + Offset(sizes, same, i + 1);
      var h' := TwoBlocks(h, q, mid, hi, SizeFor(sizes, same, i), hi - mid - CHUNK_OVERHEAD);
      && CutAt(h, h', q, mid, hi, SizeFor(sizes, same, i), hi - mid - CHUNK_OVERHEAD)
      && q + HEAD in h.m && mid + HEAD in h.m && mid == q + ElementSize(sizes, same, i)
      && CutUpTo(m0, live0, h', before, p, hi, sizes, same, i + 1)
  {
    hide Good, LiveOf, Untouched, Offset, ElementSize, KindOk, Fits, ElementStarts, CutAt, TwoBlocks;
    var q, mid := p + Offset(sizes, same, i), p + Offset(sizes, same, i + 1);
    var r := SizeFor(sizes, same, i);
    OffsetStep(sizes, same, i);
    ElementFits(sizes, same, i);
    FitsPositive(r, mid - q);
    FitsKind(r, mid - q, mid - q);
    LiveIs(h, q);
    InPlace16(h, q, mid);
    RestKind(hi - mid);
    CutOff(h, q, mid, hi, r, hi - mid - CHUNK_OVERHEAD);
    CutKeeps(m0, live0, h, TwoBlocks(h, q, mid, hi, r, hi - mid - CHUNK_OVERHEAD), before, p, hi, sizes, same, i);
  }

  /** Everything behind a 16-byte boundary stays on one. */
  lemma InPlace16(h: Heap, q: int, mid: int)
    requires Good(h, {}) && q in h.cs && h.cs[q].kind.Live? && (mid - q) % 16 == 0
    ensures mid % 16 == 0 && (q + h.cs[q].size - mid) % 16 == 0
  {
    hide Good, Size, Pinuse, Cinuse, InuseBits;
    ReadTags(h, {}, q);
  }

  lemma CutKeeps(m0: Mem, live0: map<int, Block>, h: Heap, h': Heap, before: map<int, Block>, p: int, hi: int,
                 sizes: seq<int>, same: bool, i: int)
    requires CutUpTo(m0, live0, h, before, p, hi, sizes, same, i) && 0 <= i && NonNegative(sizes)
    requires p + Offset(sizes, same, i + 1) < hi
    requires CutAt(h, h', p + Offset(sizes, same, i), p + Offset(sizes, same, i + 1), hi, SizeFor(sizes, same, i),
                   hi - p - Offset(sizes, same, i + 1) - CHUNK_OVERHEAD)
    ensures CutUpTo(m0, live0, h', before, p, hi, sizes, same, i + 1)
  {
    hide Good, LiveOf, Untouched, Offset, ElementSize, ElementStarts;
    var q, mid := p + Offset(sizes, same, i), p + Offset(sizes, same, i + 1);
    var live, live' := LiveOf(h.cs), LiveOf(h'.cs);
    OffsetStep(sizes, same, i);
    OffsetGrows(sizes, same, i, i + 1);
    StartsNext(p, sizes, same, i);
    StartsBelow(p, sizes, same, i);
    forall j | 0 <= j < i + 1
      ensures ElementOk(h', p + Offset(sizes, same, j), ElementSize(sizes, same, j), SizeFor(sizes, same, j))
    {
      if j < i {
        assert ElementOk(h, p + Offset(sizes, same, j), ElementSize(sizes, same, j), SizeFor(sizes, same, j));
        OffsetGrows(sizes, same, j, i);
      }
    }
    assert (live' - ElementStarts(p, sizes, same, i + 1)) - {mid} == before by {
      assert mid !in before;
      assert q !in before;
    }
    UntouchedFewer(h.m, h'.m, live - {q}, live0);
    UntouchedTrans(m0, h.m, h'.m, live0);
  }

  // ---------- the last element ----------

  /** All elements are blocks of their own, from `p` up to `hi` without a gap; the last one takes what is left over. */
  ghost predicate AllCut(m0: Mem, live0: map<int, Block>, h: Heap, before: map<int, Block>, p: int, hi: int,
                         sizes: seq<int>, same: bool, n: int)
  {
    && Good(h, {})
    && (forall j :: 0 <= j < n ==>
          ElementOk(h, p + Offset(sizes, same, j), LastSize(p, hi, sizes, same, n, j), SizeFor(sizes, same, j)))
    && LiveOf(h.cs) - ElementStarts(p, sizes, same, n) == before
    && Untouched(m0, h.m, live0)
  }

  function LastSize(p: int, hi: int, sizes: seq<int>, same: bool, n: int, j: int): int {
    if j == n - 1 then hi - p - Offset(sizes, same, j) else ElementSize(sizes, same, j)
  }

  lemma CutLast(m0: Mem, live0: map<int, Block>, h: Heap, before: map<int, Block>, p: int, hi: int, sizes: seq<int>,
                same: bool, n: int)
    requires n >= 1 && CutUpTo(m0, live0, h, before, p, hi, sizes, same, n - 1) && NonNegative(sizes)
    requires p + Offset(sizes, same, n) <= hi < p + Offset(sizes, same, n) + MIN_CHUNK_SIZE
    ensures var q := p + Offset(sizes, same, n - 1);
      var h' := OneBlock(h, q, hi, SizeFor(sizes, same, n - 1));
      && h'.m == h.m && h' == h.(cs := h'.cs) && AllCut(m0, live0, h', before, p, hi, sizes, same, n)
  {
    hide Good, LiveOf, Untouched, Offset, ElementSize, KindOk, Fits, ElementStarts, SetInuse, Retile;
    var q, r := p + Offset(sizes, same, n - 1), SizeFor(sizes, same, n - 1);
    var h' := OneBlock(h, q, hi, r);
    OffsetStep(sizes, same, n - 1);
    ElementFits(sizes, same, n - 1);
    LiveIs(h, q);
    Whole16(h, q);
    FitsKind(r, ElementSize(sizes, same, n - 1), hi - q);
    Relabelled(h, q, r);
    StartsNext(p, sizes, same, n - 1);
    StartsBelow(p, sizes, same, n - 1);
    forall j | 0 <= j < n
      ensures ElementOk(h', p + Offset(sizes, same, j), LastSize(p, hi, sizes, same, n, j), SizeFor(sizes, same, j))
    {
      if j < n - 1 {
        assert ElementOk(h, p + Offset(sizes, same, j), ElementSize(sizes, same, j), SizeFor(sizes, same, j));
        OffsetGrows(sizes, same, j, n - 1);
      }
    }
    assert LiveOf(h'.cs) - ElementStarts(p, sizes, same, n) == before;
  }

  lemma Whole16(h: Heap, q: int)
    requires Good(h, {}) && q in h.cs && h.cs[q].kind.Live?
    ensures h.cs[q].size % 16 == 0
  {
    hide Good, Size, Pinuse, Cinuse, InuseBits;
    ReadTags(h, {}, q);
  }

  /** A block stays as it is; only the request it is for is now known. */
  lemma Relabelled(h: Heap, q: int, r: int)
    requires Good(h, {}) && q in h.cs && h.cs[q].kind.Live? && KindOk(h.cs[q].size, Live(r))
    ensures var h' := OneBlock(h, q, q + h.cs[q].size, r);
      && h'.m == h.m && Good(h', {})
      && LiveOf(h'.cs) == LiveOf(h.cs)[q := Block(h.cs[q].size, r)]
      && forall a :: Pinned(h.cs, a) && a <= q ==> Pinned(h'.cs, a)
  {
    hide Good, RunOk, Untouched, LiveOf, KindOk, Retile;
    var hi := q + h.cs[q].size;
    BlockRun(h, {}, q);
    ReadBehind(h, q);
    UseRun(h, {}, q, hi, {q}, r);
    assert {} - {q} == {};
    SameHeads(h, q);
    hide BehindBlock;
    assert (LiveOf(h.cs) - {q})[q := Block(h.cs[q].size, r)] == LiveOf(h.cs)[q := Block(h.cs[q].size, r)];
    LabelPins(h.cs, q, hi, r);
  }

  lemma LabelPins(cs: map<int, Chunk>, q: int, hi: int, r: int)
    requires q in cs && hi in cs && q < hi
    ensures forall a :: Pinned(cs, a) && a <= q ==> Pinned(Retile(cs, q, hi, hi, Live(r), Live(r)), a)
  {
  }

  // ---------- before the first cut ----------

  /** What `malloc` makes of the padded total is that total. */
  lemma TotalIsPadded(size: int)
    requires size >= MIN_CHUNK_SIZE && size % 16 == 0
    ensures Request2Size(size - CHUNK_OVERHEAD) == size
  {
    RequestFits(size - CHUNK_OVERHEAD);
  }

  lemma StartWhole(h0: Heap, h: Heap, p: int, req: int, size: int, sizes: seq<int>, same: bool)
    requires Good(h, {}) && Allocated(h0, h, p, req, size) && size > 0
    ensures p in LiveOf(h.cs)
    ensures CutUpTo(h0.m, LiveOf(h0.cs), h, LiveOf(h0.cs), p, p + LiveOf(h.cs)[p].size, sizes, same, 0)
  {
    hide Good, Untouched, LiveOf;
    OffsetZero(sizes, same);
    assert ElementStarts(p, sizes, same, 0) == {};
    hide Offset, ElementStarts;
    var live := LiveOf(h.cs);
    assert (live - {}) - {p} == LiveOf(h0.cs);
  }

  /** The end of the block becomes the array of pointers. */
  lemma StartWithArray(h0: Heap, h: Heap, p: int, req: int, size: int, contents: int, areq: int, sizes: seq<int>,
                       same: bool)
    requires Good(h, {}) && Allocated(h0, h, p, req, size) && contents >= MIN_CHUNK_SIZE && contents % 16 == 0
    requires size - contents == Request2Size(areq) && areq >= 0
    ensures p in h.cs
    ensures var arr, end := p + contents, p + h.cs[p].size;
      var h2 := TwoBlocks(h, p, arr, end, contents - CHUNK_OVERHEAD, areq);
      && CutAt(h, h2, p, arr, end, contents - CHUNK_OVERHEAD, areq) && p + HEAD in h.m && arr + HEAD in h.m
      && arr !in LiveOf(h0.cs) && end - arr >= areq + CHUNK_OVERHEAD && arr >= p + MIN_CHUNK_SIZE
      && CutUpTo(h0.m, LiveOf(h0.cs), h2, LiveOf(h0.cs)[arr := Block(end - arr, areq)], p, arr, sizes, same, 0)
  {
    hide Good, Untouched, LiveOf, KindOk, Fits, CutAt, TwoBlocks;
    var live, live0 := LiveOf(h.cs), LiveOf(h0.cs);
    LiveIs(h, p);
    var arr, end := p + contents, p + h.cs[p].size;
    var h2 := TwoBlocks(h, p, arr, end, contents - CHUNK_OVERHEAD, areq);
    Request2SizeFits(areq);
    InPlace16(h, p, arr);
    RestKind(contents);
    FitsKind(areq, size - contents, end - arr);
    RequestFits(areq);
    CutOff(h, p, arr, end, contents - CHUNK_OVERHEAD, areq);
    OffsetZero(sizes, same);
    assert ElementStarts(p, sizes, same, 0) == {};
    hide Offset, ElementStarts;
    CutApart(h, h2, p, arr, end, contents - CHUNK_OVERHEAD, areq);
    AfterArray(h0, h, h2, p, arr, end, contents - CHUNK_OVERHEAD, areq, sizes, same);
  }

  lemma CutApart(h: Heap, h': Heap, q: int, mid: int, hi: int, r1: int, r2: int)
    requires CutAt(h, h', q, mid, hi, r1, r2)
    ensures mid !in LiveOf(h.cs)
  {
  }

  lemma AfterArray(h0: Heap, h: Heap, h2: Heap, p: int, arr: int, end: int, r1: int, areq: int, sizes: seq<int>,
                   same: bool)
    requires CutAt(h, h2, p, arr, end, r1, areq) && p < arr && p !in LiveOf(h0.cs)
    requires p in LiveOf(h.cs) && LiveOf(h.cs) == LiveOf(h0.cs)[p := LiveOf(h.cs)[p]]
    requires Untouched(h0.m, h.m, LiveOf(h0.cs))
    requires Offset(sizes, same, 0) == 0 && ElementStarts(p, sizes, same, 0) == {}
    ensures CutUpTo(h0.m, LiveOf(h0.cs), h2, LiveOf(h0.cs)[arr := Block(end - arr, areq)], p, arr, sizes, same, 0)
  {
    hide Good, Untouched, LiveOf, Offset, ElementStarts;
    var live, live0, live2 := LiveOf(h.cs), LiveOf(h0.cs), LiveOf(h2.cs);
    assert live - {p} == live0;
    UntouchedTrans(h0.m, h.m, h2.m, live0);
    assert (live2 - {}) - {p} == live0[arr := Block(end - arr, areq)];
  }

  /** Clearing the new block. */
  lemma ClearedFresh(h0: Heap, h: Heap, m': Mem, p: int, req: int, nb: int, n: int)
    requires Good(h, {}) && Allocated(h0, h, p, req, nb) && Zeroed(h.m, m', p + MEM_OFFSET, n)
    requires n <= LiveOf(h.cs)[p].size - CHUNK_OVERHEAD
    ensures Good(h.(m := m'), {}) && Allocated(h0, h.(m := m'), p, req, nb)
  {
    hide Good, Untouched;
    LiveIs(h, p);
    assert PayloadWrites(h.m, m', p, h.cs[p].size);
    hide Zeroed;
    PayloadIsFree(h, m', {}, p);
    hide PayloadWrites;
    UntouchedFewer(h.m, m', LiveOf(h.cs) - {p}, LiveOf(h0.cs));
    UntouchedTrans(h0.m, h.m, m', LiveOf(h0.cs));
  }

  // ---------- the array of pointers ----------

  /** An entry is written into the payload of the array's chunk while the elements are still being cut. */
  lemma EntryWritten(m0: Mem, live0: map<int, Block>, h: Heap, before: map<int, Block>, p: int, hi: int,
                     sizes: seq<int>, same: bool, i: int, w: int, v: int)
    requires CutUpTo(m0, live0, h, before, p, hi, sizes, same, i)
    requires hi in before && hi !in live0 && hi + MEM_OFFSET <= w < hi + before[hi].size + WORD_BYTES
    ensures w in h.m && CutUpTo(m0, live0, h.(m := h.m[w := v]), before, p, hi, sizes, same, i)
  {
    hide Good, Untouched, Offset, ElementSize, ElementStarts;
    assert hi in LiveOf(h.cs) && LiveOf(h.cs)[hi] == before[hi];
    LiveIs(h, hi);
    PayloadHeld(h, {}, hi);
    var m' := h.m[w := v];
    assert PayloadWrites(h.m, m', hi, h.cs[hi].size);
    PayloadIsFree(h, m', {}, hi);
    hide PayloadWrites, LiveOf;
    UntouchedFewer(h.m, m', LiveOf(h.cs) - {hi}, live0);
    UntouchedTrans(m0, h.m, m', live0);
  }

  // ---------- cleared elements ----------

  ghost predicate AllZero(m: Mem, a: int, b: int) { forall w :: a <= w < b ==> w in m && m[w] == 0 }

  /** The payload of element `j`, which ends with the `prev_foot` word of the next. */
  ghost predicate ElementClear(m: Mem, p: int, sizes: seq<int>, same: bool, j: int) {
    AllZero(m, p + Offset(sizes, same, j) + MEM_OFFSET, p + Offset(sizes, same, j + 1) + WORD_BYTES)
  }

  /** The payloads of the first `i` elements, and all of the rest but its head, hold zeros. */
  ghost predicate ClearUpTo(m: Mem, p: int, hi: int, sizes: seq<int>, same: bool, i: int) {
    && (forall j :: 0 <= j < i ==> ElementClear(m, p, sizes, same, j))
    && AllZero(m, p + Offset(sizes, same, i) + MEM_OFFSET, hi + WORD_BYTES)
  }

  /** Writing the head of element `i` keeps its payload, and everything behind it, clear. */
  lemma ClearNext(m: Mem, p: int, hi: int, sizes: seq<int>, same: bool, i: int, v: int)
    requires ClearUpTo(m, p, hi, sizes, same, i) && 0 <= i && NonNegative(sizes) && p + Offset(sizes, same, i + 1) <= hi
    ensures ClearUpTo(m[p + Offset(sizes, same, i) + HEAD := v], p, hi, sizes, same, i + 1)
  {
    hide Offset;
    var m' := m[p + Offset(sizes, same, i) + HEAD := v];
    OffsetGrows(sizes, same, i, i + 1);
    forall j | 0 <= j < i + 1
      ensures ElementClear(m', p, sizes, same, j)
    {
      if j < i {
        OffsetGrows(sizes, same, j + 1, i);
        assert ElementClear(m, p, sizes, same, j);
      }
    }
  }

  /** The last head leaves all payloads clear. */
  lemma ClearLast(m: Mem, p: int, hi: int, sizes: seq<int>, same: bool, n: int, v: int)
    requires ClearUpTo(m, p, hi, sizes, same, n - 1) && 1 <= n && NonNegative(sizes) && p + Offset(sizes, same, n) <= hi
    ensures AllClear(m[p + Offset(sizes, same, n - 1) + HEAD := v], p, hi, sizes, same, n)
  {
    hide Offset;
    var m' := m[p + Offset(sizes, same, n - 1) + HEAD := v];
    forall j | 0 <= j < n
      ensures AllZero(m', p + Offset(sizes, same, j) + MEM_OFFSET, ElementEnd(p, hi, sizes, same, n, j) + WORD_BYTES)
    {
      if j < n - 1 {
        OffsetGrows(sizes, same, j + 1, n - 1);
        assert ElementClear(m, p, sizes, same, j);
      }
    }
  }

  function ElementEnd(p: int, hi: int, sizes: seq<int>, same: bool, n: int, j: int): int {
    if j == n - 1 then hi else p + Offset(sizes, same, j + 1)
  }

  ghost predicate AllClear(m: Mem, p: int, hi: int, sizes: seq<int>, same: bool, n: int) {
    forall j :: 0 <= j < n ==>
      AllZero(m, p + Offset(sizes, same, j) + MEM_OFFSET, ElementEnd(p, hi, sizes, same, n, j) + WORD_BYTES)
  }

  lemma ClearFrame(m: Mem, a: int, b: int, w: int, v: int)
    requires AllZero(m, a, b) && (w < a || w >= b)
    ensures AllZero(m[w := v], a, b)
  {
  }

  lemma ClearKept(m: Mem, p: int, hi: int, sizes: seq<int>, same: bool, i: int, w: int, v: int)
    requires ClearUpTo(m, p, hi, sizes, same, i) && 0 <= i && NonNegative(sizes) && p + Offset(sizes, same, i) <= hi
    requires w >= hi + HEAD
    ensures ClearUpTo(m[w := v], p, hi, sizes, same, i)
  {
    hide Offset, AllZero;
    var m' := m[w := v];
    forall j | 0 <= j < i
      ensures ElementClear(m', p, sizes, same, j)
    {
      OffsetGrows(sizes, same, j + 1, i);
      assert ElementClear(m, p, sizes, same, j);
      ClearFrame(m, p + Offset(sizes, same, j) + MEM_OFFSET, p + Offset(sizes, same, j + 1) + WORD_BYTES, w, v);
    }
    ClearFrame(m, p + Offset(sizes, same, i) + MEM_OFFSET, hi + WORD_BYTES, w, v);
  }

  // ---------- the rest's head is not in memory yet ----------

  /** A cut writes the head of the front part; the head of the new rest is again left for later. */
  lemma PokedCut(h: Heap, h': Heap, q: int, mid: int, hi: int, r1: int, r2: int)
    requires CutAt(Poked(h, q, hi - q), h', q, mid, hi, r1, r2)
    ensures Poked(h.(m := SetSizeAndPinuseOfInuseChunk(h.m, q, mid - q), cs := h'.cs), mid, hi - mid) == h'
  {
    hide Good, LiveOf, Untouched;
    var m, v := h.m, Head(mid - q, true, true);
    assert m[q + HEAD := Head(hi - q, true, true)][q + HEAD := v] == m[q + HEAD := v];
  }

  lemma PokedWrite(h: Heap, q: int, rem: int, w: int, v: int)
    requires w != q + HEAD
    ensures Poked(h.(m := h.m[w := v]), q, rem) == Poked(h, q, rem).(m := Poked(h, q, rem).m[w := v])
  {
    assert h.m[w := v][q + HEAD := Head(rem, true, true)] == h.m[q + HEAD := Head(rem, true, true)][w := v];
  }

  /** The chunk behind the last element is pinned, too. */
  lemma BehindLast(m0: Mem, live0: map<int, Block>, h: Heap, before: map<int, Block>, p: int, hi: int, sizes: seq<int>,
                   same: bool, n: int)
    requires n >= 1 && AllCut(m0, live0, h, before, p, hi, sizes, same, n)
    ensures Pinned(h.cs, hi)
  {
    hide Good, Untouched, Offset, ElementStarts;
    var a := p + Offset(sizes, same, n - 1);
    assert ElementOk(h, a, LastSize(p, hi, sizes, same, n, n - 1), SizeFor(sizes, same, n - 1));
    LiveIs(h, a);
    ReadNext(h, {}, a);
  }

  /** What a turn of the loop of `ialloc` starts from: the rest from `q` up to `hi` lacks only its head. */
  ghost predicate Cutting(h: Heap, m0: Mem, live0: map<int, Block>, before: map<int, Block>, p: int, hi: int,
                          sizes: seq<int>, same: bool, i: int, q: int)
  {
    && CutUpTo(m0, live0, Poked(h, q, hi - q), before, p, hi, sizes, same, i)
    && q == p + Offset(sizes, same, i) && q + HEAD in h.m && i >= 0 && NonNegative(sizes)
  }

  lemma CuttingPlace(h: Heap, m0: Mem, live0: map<int, Block>, before: map<int, Block>, p: int, hi: int,
                     sizes: seq<int>, same: bool, i: int, q: int)
    requires Cutting(h, m0, live0, before, p, hi, sizes, same, i, q)
    ensures q == p + Offset(sizes, same, i) < hi
  {
    hide Good, RestOk, LiveOf, Untouched;
  }

  /** The state after the head of element `i` has been written. */
  ghost function AfterCut(h: Heap, q: int, mid: int, hi: int, r: int): Heap {
    h.(m := SetSizeAndPinuseOfInuseChunk(h.m, q, mid - q),
       cs := TwoBlocks(Poked(h, q, hi - q), q, mid, hi, r, hi - mid - CHUNK_OVERHEAD).cs)
  }

  lemma CutStep(h: Heap, m0: Mem, live0: map<int, Block>, before: map<int, Block>, p: int, hi: int, sizes: seq<int>,
                same: bool, i: int, q: int)
    requires Cutting(h, m0, live0, before, p, hi, sizes, same, i, q)
    requires p + Offset(sizes, same, i + 1) + MIN_CHUNK_SIZE <= hi
    ensures var mid := q + ElementSize(sizes, same, i); var h' := AfterCut(h, q, mid, hi, SizeFor(sizes, same, i));
      && h' == h.(m := SetSizeAndPinuseOfInuseChunk(h.m, q, mid - q), cs := h'.cs)
      && Cutting(h', m0, live0, before, p, hi, sizes, same, i + 1, mid)
      && (ClearUpTo(h.m, p, hi, sizes, same, i) ==> ClearUpTo(h'.m, p, hi, sizes, same, i + 1))
  {
    hide CutUpTo, Offset, ClearUpTo, Poked, CutAt, TwoBlocks, ElementSize;
    var mid, r := p + Offset(sizes, same, i + 1), SizeFor(sizes, same, i);
    var h1 := Poked(h, q, hi - q);
    CutNext(m0, live0, h1, before, p, hi, sizes, same, i);
    PokedCut(h, TwoBlocks(h1, q, mid, hi, r, hi - mid - CHUNK_OVERHEAD), q, mid, hi, r, hi - mid - CHUNK_OVERHEAD);
    if ClearUpTo(h.m, p, hi, sizes, same, i) {
      ClearNext(h.m, p, hi, sizes, same, i, Head(mid - q, true, true));
    }
    assert mid + HEAD in h.m by { PokedFields(h, q, hi - q); }
  }

  ghost function AfterLast(h: Heap, q: int, hi: int, r: int): Heap {
    h.(m := SetSizeAndPinuseOfInuseChunk(h.m, q, hi - q), cs := OneBlock(Poked(h, q, hi - q), q, hi, r).cs)
  }

  lemma LastStep(h: Heap, m0: Mem, live0: map<int, Block>, before: map<int, Block>, p: int, hi: int, sizes: seq<int>,
                 same: bool, n: int, q: int)
    requires n >= 1 && Cutting(h, m0, live0, before, p, hi, sizes, same, n - 1, q)
    requires p + Offset(sizes, same, n) <= hi < p + Offset(sizes, same, n) + MIN_CHUNK_SIZE
    ensures var h' := AfterLast(h, q, hi, SizeFor(sizes, same, n - 1));
      && h' == h.(m := SetSizeAndPinuseOfInuseChunk(h.m, q, hi - q), cs := h'.cs)
      && AllCut(m0, live0, h', before, p, hi, sizes, same, n)
      && (ClearUpTo(h.m, p, hi, sizes, same, n - 1) ==> AllClear(h'.m, p, hi, sizes, same, n))
  {
    hide CutUpTo, Offset, ClearUpTo, AllClear, OneBlock, ElementSize, AllCut;
    CutLast(m0, live0, Poked(h, q, hi - q), before, p, hi, sizes, same, n);
    if ClearUpTo(h.m, p, hi, sizes, same, n - 1) {
      ClearLast(h.m, p, hi, sizes, same, n, Head(hi - q, true, true));
    }
  }

  lemma EntryStep(h: Heap, m0: Mem, live0: map<int, Block>, before: map<int, Block>, p: int, hi: int, sizes: seq<int>,
                  same: bool, i: int, q: int, w: int, v: int)
    requires Cutting(h, m0, live0, before, p, hi, sizes, same, i, q) && q < hi
    requires hi in before && hi !in live0 && hi + MEM_OFFSET <= w < hi + before[hi].size + WORD_BYTES
    ensures w in h.m && Cutting(h.(m := h.m[w := v]), m0, live0, before, p, hi, sizes, same, i, q)
    ensures ClearUpTo(h.m, p, hi, sizes, same, i) ==> ClearUpTo(h.m[w := v], p, hi, sizes, same, i)
  {
    hide CutUpTo, Offset, ClearUpTo, Poked;
    EntryWritten(m0, live0, Poked(h, q, hi - q), before, p, hi, sizes, same, i, w, v);
    PokedWrite(h, q, hi - q, w, v);
    PokedFields(h, q, hi - q);
    if ClearUpTo(h.m, p, hi, sizes, same, i) {
      ClearKept(h.m, p, hi, sizes, same, i, w, v);
    }
  }

  /** The array of pointers has room for `n` entries, and no one else holds it. */
  ghost predicate ArrayReady(given: bool, length: int, marray: int, n: int, live0: map<int, Block>,
                             before: map<int, Block>, hi: int)
  {
    if given then n <= length
    else marray == hi + MEM_OFFSET && hi in before && hi !in live0 && 8 * n + CHUNK_OVERHEAD <= before[hi].size
  }

  // ---------- the whole operation ----------

  /** What `ialloc` asks for on top of the elements: room for the array, unless the caller has one. */
  function ArraySize(given: bool, n: int): int { if given then 0 else Request2Size(8 * n) }

  /**
   The elements lie back to back from `p`, each its own block of at least its padded size, for its own request, with
   both in-use bits set, and so does the array behind them if the caller brought none. Nobody else notices.
   */
  ghost predicate Independents(h0: Heap, h: Heap, p: int, hi: int, sizes: seq<int>, same: bool, n: int, given: bool) {
    && (forall j :: 0 <= j < n ==>
          && ElementOk(h, p + Offset(sizes, same, j), LastSize(p, hi, sizes, same, n, j), SizeFor(sizes, same, j))
          && LastSize(p, hi, sizes, same, n, j) >= ElementSize(sizes, same, j)
          && p + Offset(sizes, same, j) !in LiveOf(h0.cs))
    && (given ==> LiveOf(h.cs) - ElementStarts(p, sizes, same, n) == LiveOf(h0.cs))
    && (!given ==>
          && hi == p + Offset(sizes, same, n) && hi !in LiveOf(h0.cs) && hi in LiveOf(h.cs) && Pinned(h.cs, hi)
          && LiveOf(h.cs)[hi].req == 8 * n && Fits(8 * n, Request2Size(8 * n))
          && Request2Size(8 * n) <= LiveOf(h.cs)[hi].size
          && (LiveOf(h.cs) - ElementStarts(p, sizes, same, n)) - {hi} == LiveOf(h0.cs))
    && Untouched(h0.m, h.m, LiveOf(h0.cs))
  }

  lemma MakesIndependents(h0: Heap, h: Heap, before: map<int, Block>, p: int, hi: int, sizes: seq<int>, same: bool,
                          n: int, given: bool, size: int)
    requires AllCut(h0.m, LiveOf(h0.cs), h, before, p, hi, sizes, same, n) && n >= 1 && NonNegative(sizes)
    requires p + Offset(sizes, same, n) <= hi
    requires if given then before == LiveOf(h0.cs)
      else hi == p + Offset(sizes, same, n) && hi !in LiveOf(h0.cs) && before == LiveOf(h0.cs)[hi := Block(size, 8 * n)]
           && Request2Size(8 * n) <= size
    requires forall a :: a in before ==> a < p || hi <= a
    ensures Independents(h0, h, p, hi, sizes, same, n, given)
  {
    hide Good, LiveOf, Untouched, Offset, ElementSize, ElementStarts, Request2Size, Fits;
    BehindLast(h0.m, LiveOf(h0.cs), h, before, p, hi, sizes, same, n);
    Request2SizeFits(8 * n);
    forall j | 0 <= j < n
      ensures LastSize(p, hi, sizes, same, n, j) >= ElementSize(sizes, same, j)
      ensures p + Offset(sizes, same, j) !in LiveOf(h0.cs)
    {
      OffsetStep(sizes, same, j);
      OffsetGrows(sizes, same, j, n);
      OffsetGrows(sizes, same, 0, j);
      OffsetZero(sizes, same);
      assert p + Offset(sizes, same, j) !in before;
    }
    if !given {
      assert hi in before && before - {hi} == LiveOf(h0.cs);
    }
  }

  /** The blocks that were there lie outside the new one. */
  lemma OthersOutside(h0: Heap, h: Heap, p: int, req: int, nb: int)
    requires Good(h, {}) && Allocated(h0, h, p, req, nb)
    ensures p in h.cs && h.cs[p].kind.Live? && nb <= h.cs[p].size == LiveOf(h.cs)[p].size < nb + MIN_CHUNK_SIZE
    ensures forall a :: a in LiveOf(h0.cs) ==> a < p || p + h.cs[p].size <= a
  {
    hide Good, Untouched;
    LiveIs(h, p);
    NoneInside(h, {}, p);
    assert forall a :: a in LiveOf(h0.cs) ==> a in LiveOf(h.cs) && a != p;
  }

  /** Without an array to set apart, the new block is the rest to cut. */
  lemma WholeReady(h0: Heap, h: Heap, p: int, req: int, size: int, sizes: seq<int>, same: bool)
    requires Good(h, {}) && Allocated(h0, h, p, req, size) && size > 0 && NonNegative(sizes)
    ensures p in h.cs && Cutting(h, h0.m, LiveOf(h0.cs), LiveOf(h0.cs), p, p + h.cs[p].size, sizes, same, 0, p)
  {
    hide Good, LiveOf, Untouched, Offset, CutUpTo;
    StartWhole(h0, h, p, req, size, sizes, same);
    LiveIs(h, p);
    OffsetZero(sizes, same);
    HeadOf(h, {}, p);
    assert Poked(h, p, h.cs[p].size) == h by {
      assert h.m[p + HEAD := h.m[p + HEAD]] == h.m;
    }
  }

  /** The head of the array's chunk has been written. */
  ghost function AfterArrayHead(h: Heap, p: int, arr: int, end: int, areq: int): Heap {
    h.(m := SetSizeAndPinuseOfInuseChunk(h.m, arr, end - arr),
       cs := TwoBlocks(h, p, arr, end, arr - p - CHUNK_OVERHEAD, areq).cs)
  }

  lemma ArrayIsReady(h0: Heap, h: Heap, p: int, req: int, size: int, contents: int, areq: int, sizes: seq<int>,
                     same: bool)
    requires Good(h, {}) && Allocated(h0, h, p, req, size) && contents >= MIN_CHUNK_SIZE && contents % 16 == 0
    requires size - contents == Request2Size(areq) && areq >= 0 && NonNegative(sizes)
    ensures p in h.cs
    ensures var arr, end := p + contents, p + h.cs[p].size; var h' := AfterArrayHead(h, p, arr, end, areq);
      && h' == h.(m := SetSizeAndPinuseOfInuseChunk(h.m, arr, end - arr), cs := h'.cs)
      && arr !in LiveOf(h0.cs)
      && Cutting(h', h0.m, LiveOf(h0.cs), LiveOf(h0.cs)[arr := Block(end - arr, areq)], p, arr, sizes, same, 0, p)
  {
    hide Good, LiveOf, Untouched, Offset, CutUpTo, CutAt, TwoBlocks, Allocated, Request2Size, Poked;
    StartWithArray(h0, h, p, req, size, contents, areq, sizes, same);
    OffsetZero(sizes, same);
    var arr, end := p + contents, p + h.cs[p].size;
    assert arr - p - CHUNK_OVERHEAD == contents - CHUNK_OVERHEAD;
    var h2 := TwoBlocks(h, p, arr, end, contents - CHUNK_OVERHEAD, areq);
    PokedArray(h, h2, p, arr, end, contents - CHUNK_OVERHEAD, areq);
  }

  lemma PokedArray(h: Heap, h': Heap, q: int, mid: int, hi: int, r1: int, r2: int)
    requires CutAt(h, h', q, mid, hi, r1, r2) && q != mid
    ensures Poked(h.(m := SetSizeAndPinuseOfInuseChunk(h.m, mid, hi - mid), cs := h'.cs), q, mid - q) == h'
  {
    hide Good, LiveOf, Untouched;
    var m, v, w := h.m, Head(mid - q, true, true), Head(hi - mid, true, true);
    assert m[mid + HEAD := w][q + HEAD := v] == m[q + HEAD := v][mid + HEAD := w];
  }

  /** Clearing up to the array's chunk clears all the elements will hold. */
  lemma ClearStart(m: Mem, p: int, hi: int, n: int, w: int, v: int, sizes: seq<int>, same: bool)
    requires AllZero(m, p + MEM_OFFSET, p + MEM_OFFSET + n) && hi <= p + n + WORD_BYTES && w >= hi + HEAD
    ensures ClearUpTo(m, p, hi, sizes, same, 0) && ClearUpTo(m[w := v], p, hi, sizes, same, 0)
  {
    OffsetZero(sizes, same);
    hide Offset;
  }

  lemma ZeroedIsZero(m: Mem, m': Mem, ptr: int, n: int)
    requires Zeroed(m, m', ptr, n)
    ensures AllZero(m', ptr, ptr + n)
  {
  }

  lemma TotalSize(sizes: seq<int>, same: bool, n: int, given: bool)
    requires NonNegative(sizes) && n >= 1
    ensures var size := Offset(sizes, same, n) + ArraySize(given, n);
      && size % 16 == 0 && size >= MIN_CHUNK_SIZE && Request2Size(size - CHUNK_OVERHEAD) == size
      && Offset(sizes, same, n) >= MIN_CHUNK_SIZE && Offset(sizes, same, n) % 16 == 0
  {
    hide Offset, Request2Size, Fits;
    OffsetZero(sizes, same);
    OffsetGrows(sizes, same, 0, n);
    OffsetGrows(sizes, same, n, n);
    Request2SizeFits(8 * n);
    FitsPositive(8 * n, Request2Size(8 * n));
    TotalIsPadded(Offset(sizes, same, n) + ArraySize(given, n));
  }

  lemma AllCutGood(m0: Mem, live0: map<int, Block>, h: Heap, before: map<int, Block>, p: int, hi: int, sizes: seq<int>,
                   same: bool, n: int)
    requires AllCut(m0, live0, h, before, p, hi, sizes, same, n)
    ensures Good(h, {})
  {
  }
}
