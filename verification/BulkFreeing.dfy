/** `internal_bulk_free` of src/dlmalloc.c: adjacent entries are merged before they are freed. */
module BulkFreeing {
  import opened Words
  import opened Memory
  import opened Tiling
  import opened HeapState
  import opened HeapOps
  import opened Freeing
  import opened Resizing
  import opened Canonical

  /** The blocks that the entries from `i` on name. */
  function Pending(s: seq<int>, i: int): set<int> {
    set j | 0 <= i <= j < |s| && s[j] != 0 :: s[j] - MEM_OFFSET
  }

  /** The entries from `i` on are null or name different blocks in use. */
  ghost predicate AllLive(s: seq<int>, i: int, live: map<int, Block>) {
    && (forall j :: 0 <= i <= j < |s| && s[j] != 0 ==> s[j] - MEM_OFFSET in live)
    && (forall j, k :: 0 <= i <= j < k < |s| && s[j] != 0 ==> s[j] != s[k])
  }

  /** What is left to do at entry `i`: the blocks that are not to be freed are as they were. */
  ghost predicate Halfway(h: Heap, h1: Heap, s0: seq<int>, s: seq<int>, i: int) {
    && Good(h1, {}) && h1.segs == h.segs && |s| == |s0| && 0 <= i <= |s|
    && (forall j :: 0 <= j < i ==> s[j] == 0)
    && AllLive(s, i, LiveOf(h1.cs))
    && LiveOf(h1.cs) - Pending(s, i) == LiveOf(h.cs) - Pending(s0, 0)
    && Untouched(h.m, h1.m, LiveOf(h.cs) - Pending(s0, 0))
  }

  lemma StartBulk(h: Heap, s: seq<int>)
    requires Good(h, {}) && AllLive(s, 0, LiveOf(h.cs))
    ensures Halfway(h, h, s, s, 0)
  {
    hide Good, LiveOf, Pending;
    UntouchedSelf(h, {});
    hide Untouched;
    UntouchedFewer(h.m, h.m, LiveOf(h.cs), LiveOf(h.cs) - Pending(s, 0));
  }

  lemma PendingFirst(s: seq<int>, i: int)
    requires 0 <= i < |s|
    ensures Pending(s, i) == (if s[i] == 0 then {} else {s[i] - MEM_OFFSET}) + Pending(s, i + 1)
  {
  }

  lemma PendingSame(s: seq<int>, s': seq<int>, i: int)
    requires |s'| == |s| && 0 <= i <= |s| && forall j :: i <= j < |s| ==> s'[j] == s[j]
    ensures Pending(s', i) == Pending(s, i)
  {
    forall x | x in Pending(s, i)
      ensures x in Pending(s', i)
    {
      var j :| i <= j < |s| && s[j] != 0 && x == s[j] - MEM_OFFSET;
      assert s'[j] != 0 && x == s'[j] - MEM_OFFSET;
    }
    forall x | x in Pending(s', i)
      ensures x in Pending(s, i)
    {
      var j :| i <= j < |s'| && s'[j] != 0 && x == s'[j] - MEM_OFFSET;
      assert s[j] != 0 && x == s[j] - MEM_OFFSET;
    }
  }

  lemma NotLater(s: seq<int>, i: int, live: map<int, Block>)
    requires 0 <= i < |s| && s[i] != 0 && AllLive(s, i, live)
    ensures s[i] - MEM_OFFSET !in Pending(s, i + 1)
  {
  }

  lemma EntryIs(h: Heap, h1: Heap, s0: seq<int>, s: seq<int>, i: int)
    requires exists k :: 0 <= k <= i && Halfway(h, h1, s0, s, k)
    requires 0 <= i < |s| && s[i] != 0
    ensures Good(h1, {}) && s[i] - MEM_OFFSET in LiveOf(h1.cs)
    ensures var p := s[i] - MEM_OFFSET; p in h1.cs && h1.cs[p].kind.Live? && h1.cs[p].size == LiveOf(h1.cs)[p].size
  {
    hide Good, Untouched, Pending;
  }

  /** A null entry. */
  lemma SkipEntry(h: Heap, h1: Heap, s0: seq<int>, s: seq<int>, i: int)
    requires Halfway(h, h1, s0, s, i) && i < |s| && s[i] == 0
    ensures Halfway(h, h1, s0, s, i + 1)
  {
    hide Good, LiveOf, Pending, Untouched;
    PendingFirst(s, i);
    assert {} + Pending(s, i + 1) == Pending(s, i + 1);
  }

  /** An entry whose block has been freed. */
  lemma FreedEntry(h: Heap, h1: Heap, h2: Heap, s0: seq<int>, s: seq<int>, i: int)
    requires Halfway(h, h1, s0, s, i) && i < |s| && s[i] != 0
    requires Good(h2, {}) && h2.segs == h1.segs && Freed(h1, h2, s[i] - MEM_OFFSET)
    ensures Halfway(h, h2, s0, s[i := 0], i + 1)
  {
    hide Good, LiveOf, Pending, Untouched;
    var s', p := s[i := 0], s[i] - MEM_OFFSET;
    var live, live1, live2 := LiveOf(h.cs), LiveOf(h1.cs), LiveOf(h2.cs);
    PendingFirst(s, i);
    PendingSame(s, s', i + 1);
    NotLater(s, i, live1);
    assert live2 - Pending(s', i + 1) == live1 - Pending(s, i);
    LaterStillLive(s, s', i, live1, live2);
    UntouchedFewer(h1.m, h2.m, live2, live - Pending(s0, 0));
    UntouchedTrans(h.m, h1.m, h2.m, live - Pending(s0, 0));
  }

  lemma LaterStillLive(s: seq<int>, s': seq<int>, i: int, live1: map<int, Block>, live2: map<int, Block>)
    requires AllLive(s, i, live1) && 0 <= i < |s| && s[i] != 0 && |s'| == |s| && forall j :: i < j < |s| ==>
      s'[j] == s[j]
    requires live2 == live1 - {s[i] - MEM_OFFSET}
    ensures AllLive(s', i + 1, live2)
  {
  }

  // ---------- merging with the next entry ----------

  /** Two adjacent blocks become one. */
  lemma MergeBlocks(h: Heap, p: int, n: int)
    requires Good(h, {}) && p in h.cs && h.cs[p].kind.Live? && n == p + h.cs[p].size && n in h.cs && h.cs[n].kind.Live?
    ensures PairMerged(h, OneBlock(h, p, n + h.cs[n].size, n + h.cs[n].size - p - CHUNK_OVERHEAD), p, n)
  {
    hide Good, RunOk, LiveOf, KindOk, Retile, Untouched, Size, Pinuse, Cinuse, InuseBits, HeadWord;
    var hi := n + h.cs[n].size;
    var req := hi - p - CHUNK_OVERHEAD;
    BlockRun(h, {}, p);
    BlockRun(h, {}, n);
    RunJoin(h, p, n, hi, {p}, {n});
    ReadTags(h, {}, p);
    ReadTags(h, {}, n);
    ReadBehind(h, n);
    assert {p} + {n} == {p, n} && {} - {p, n} == {};
    RestKind(hi - p);
    UseRun(h, {}, p, hi, {p, n}, req);
  }

  ghost predicate PairMerged(h: Heap, h': Heap, p: int, n: int) {
    && p in h.cs && n in h.cs && p + HEAD in h.m && n + h.cs[n].size + HEAD in h.m
    && Good(h', {})
    && LiveOf(h'.cs) == (LiveOf(h.cs) - {p, n})[p := Block(n + h.cs[n].size - p, n + h.cs[n].size - p - CHUNK_OVERHEAD)]
    && Untouched(h.m, h'.m, LiveOf(h.cs) - {p, n})
  }

  /** The entry's block has been merged into the next entry's, which now names it. */
  lemma MergedEntry(h: Heap, h1: Heap, h2: Heap, s0: seq<int>, s: seq<int>, i: int, p: int, n: int)
    requires Halfway(h, h1, s0, s, i) && i + 1 < |s| && s[i] == p + MEM_OFFSET && s[i] != 0
    requires s[i + 1] == n + MEM_OFFSET && s[i + 1] != 0
    requires PairMerged(h1, h2, p, n) && h2.segs == h1.segs
    ensures Halfway(h, h2, s0, s[i := 0][i + 1 := p + MEM_OFFSET], i + 1)
  {
    hide Good, LiveOf, Pending, Untouched;
    var s' := s[i := 0][i + 1 := p + MEM_OFFSET];
    var live, live1, live2 := LiveOf(h.cs), LiveOf(h1.cs), LiveOf(h2.cs);
    PendingFirst(s, i);
    PendingFirst(s, i + 1);
    PendingFirst(s', i + 1);
    PendingSame(s, s', i + 2);
    NotLater(s, i, live1);
    assert Pending(s, i) == {p} + ({n} + Pending(s, i + 2)) && Pending(s', i + 1) == {p} + Pending(s, i + 2);
    assert live2 - Pending(s', i + 1) == live1 - Pending(s, i);
    MergedStillLive(s, s', i, p, n, live1, live2);
    assert live - Pending(s0, 0) == live1 - Pending(s, i);
    UntouchedFewer(h1.m, h2.m, live1 - {p, n}, live - Pending(s0, 0));
    UntouchedTrans(h.m, h1.m, h2.m, live - Pending(s0, 0));
  }

  lemma MergedStillLive(s: seq<int>, s': seq<int>, i: int, p: int, n: int, live1: map<int, Block>,
                        live2: map<int, Block>)
    requires AllLive(s, i, live1) && 0 <= i && i + 1 < |s|
    requires s[i] == p + MEM_OFFSET != 0 && s[i + 1] == n + MEM_OFFSET != 0
    requires s' == s[i := 0][i + 1 := p + MEM_OFFSET]
    requires forall a :: a in live1 && a != n ==> a in live2
    ensures AllLive(s', i + 1, live2)
  {
  }

  lemma BulkDone(h: Heap, h1: Heap, s0: seq<int>, s: seq<int>)
    requires Halfway(h, h1, s0, s, |s|)
    ensures Good(h1, {}) && h1.segs == h.segs && LiveOf(h1.cs) == LiveOf(h.cs) - Pending(s0, 0)
    ensures Untouched(h.m, h1.m, LiveOf(h1.cs)) && forall j :: 0 <= j < |s| ==> s[j] == 0
  {
    hide Good, LiveOf, Untouched;
    assert Pending(s, |s|) == {};
    hide Pending;
    assert LiveOf(h1.cs) - {} == LiveOf(h1.cs);
  }

  // ---------- freeing one by one ----------

  ghost predicate FreedAt(hs: seq<Heap>, order: seq<int>, i: int)
    requires 0 <= i < |order| && |hs| == |order| + 1
  {
    order[i] in LiveOf(hs[i].cs) && Freed(hs[i], hs[i + 1], order[i])
  }

  /** A run that frees the blocks of `order`, one after the other, while no memory goes back to the system. */
  ghost predicate FreedInOrder(hs: seq<Heap>, order: seq<int>) {
    && |hs| == |order| + 1
    && (forall i :: 0 <= i < |hs| ==> Good(hs[i], {}) && hs[i].segs == hs[0].segs)
    && (forall i :: 0 <= i < |order| ==> FreedAt(hs, order, i))
  }

  function Blocks(order: seq<int>): set<int> { set p | p in order }

  lemma {:induction false} FreedSoFar(hs: seq<Heap>, order: seq<int>, i: int)
    requires FreedInOrder(hs, order) && 0 <= i <= |order|
    ensures LiveOf(hs[i].cs) == LiveOf(hs[0].cs) - Blocks(order[..i])
    decreases i
  {
    hide Good, LiveOf, Untouched;
    if i == 0 {
      assert Blocks(order[..0]) == {};
      assert LiveOf(hs[0].cs) - {} == LiveOf(hs[0].cs);
    } else {
      FreedSoFar(hs, order, i - 1);
      assert FreedAt(hs, order, i - 1);
      assert order[..i] == order[..i - 1] + [order[i - 1]];
      assert Blocks(order[..i]) == Blocks(order[..i - 1]) + {order[i - 1]};
    }
  }

  ghost function Last(hs: seq<Heap>): Heap
    requires hs != []
  {
    hs[|hs| - 1]
  }

  lemma FreedAtEnd(hs: seq<Heap>, order: seq<int>)
    requires FreedInOrder(hs, order)
    ensures hs != [] && Good(Last(hs), {}) && Last(hs).segs == hs[0].segs
    ensures LiveOf(Last(hs).cs) == LiveOf(hs[0].cs) - Blocks(order)
  {
    hide Good, LiveOf, FreedAt;
    FreedSoFar(hs, order, |order|);
    assert order[..|order|] == order;
  }

  /** Freeing the same blocks in two different orders leaves the same chunks. */
  lemma OrderDoesNotMatter(hs: seq<Heap>, order: seq<int>, hs': seq<Heap>, order': seq<int>)
    requires FreedInOrder(hs, order) && FreedInOrder(hs', order') && hs[0] == hs'[0] && Blocks(order) == Blocks(order')
    ensures Last(hs).cs == Last(hs').cs && Last(hs).top == Last(hs').top && Last(hs).topsize == Last(hs').topsize
  {
    hide Good, LiveOf, FreedInOrder, Last, Blocks;
    FreedAtEnd(hs, order);
    FreedAtEnd(hs', order');
    CanonicalTiling(Last(hs), Last(hs'));
  }

  /**
   Freeing the entries of an array in bulk, merging neighbours first, leaves the same chunks as freeing their blocks one
   by one in any order. `h1` is what `FreeEntries` leaves of `h`.
   */
  lemma BulkFreeIsCanonical(h: Heap, h1: Heap, entries: seq<int>, hs: seq<Heap>, order: seq<int>)
    requires Good(h1, {}) && h1.segs == h.segs && LiveOf(h1.cs) == LiveOf(h.cs) - Pending(entries, 0)
    requires FreedInOrder(hs, order) && hs[0] == h && Blocks(order) == Pending(entries, 0)
    ensures h1.cs == Last(hs).cs && h1.top == Last(hs).top && h1.topsize == Last(hs).topsize
  {
    hide Good, LiveOf, FreedInOrder, Last, Blocks, Pending;
    FreedAtEnd(hs, order);
    CanonicalTiling(h1, Last(hs));
  }
}
