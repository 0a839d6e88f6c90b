/** Freeing a block: merging it with its free neighbours, whatever list or role these are in. */
module Freeing {
  import opened Words
  import opened Memory
  import opened Tiling
  import opened HeapState
  import opened HeapOps

  /** The block `p` is gone, and nothing else has changed for anyone. */
  ghost predicate Freed(h: Heap, h': Heap, p: int) {
    && LiveOf(h'.cs) == LiveOf(h.cs) - {p}
    && Untouched(h.m, h'.m, LiveOf(h'.cs))
  }

  lemma FreedLive(h: Heap, h': Heap, p: int)
    requires Freed(h, h', p)
    ensures LiveOf(h'.cs) == LiveOf(h.cs) - {p}
  {
  }

  /** Where a freed chunk has gone: into the designated victim, into top, or it has yet to be put in a bin. */
  datatype Outcome = InVictim | InTop | ToBin(chunk: int, size: int)

  /** Where the free memory that holds the block `p` starts and ends once it is freed; top is not counted. */
  function FreeFrom(h: Heap, p: int): int {
    if p in h.cs && !h.cs[p].pin then p - At(h.m, p) else p
  }

  function FreeTo(h: Heap, p: int): int {
    if p !in h.cs then p else
    var n := p + h.cs[p].size;
    if n in h.cs && h.cs[n].kind.Free? then n + h.cs[n].size else n
  }

  lemma FreeBehind(h: Heap, p: int)
    requires p in h.cs
    ensures var n := p + h.cs[p].size; n in h.cs && h.cs[n].kind.Free? ==> FreeTo(h, p) == n + h.cs[n].size
  {
  }

  /** The designated victim is right before or right behind the block `p`, which does not join top. */
  predicate MergesVictim(h: Heap, p: int) {
    && p in h.cs && p + h.cs[p].size != h.top && h.dv != 0
    && ((!h.cs[p].pin && FreeFrom(h, p) == h.dv) || p + h.cs[p].size == h.dv)
  }

  /** The chunks of a merge that starts at `lo` and holds the block `p`. */
  function Merged(lo: int, p: int): set<int> { if lo == p then {p} else {lo, p} }

  /** Half way through freeing the block `p` of `h`: the chunk before it, if free, is in hand. */
  ghost predicate Merging(h: Heap, h1: Heap, lo: int, n: int, p: int) {
    && Good(h1, Merged(lo, p) - {p}) && RunOk(h1, lo, n, Merged(lo, p)) && h1.cs == h.cs
    && p in h.cs && h.cs[p].kind.Live? && n == p + h.cs[p].size && lo in h.cs && h.cs[lo].pin
    && lo <= p && (lo < p ==> h.cs[lo].kind.Free? && lo + h.cs[lo].size == p)
    && Untouched(h.m, h1.m, LiveOf(h.cs))
  }

  lemma MergeNone(h: Heap, p: int)
    requires Good(h, {}) && p in h.cs && h.cs[p].kind.Live? && h.cs[p].pin
    ensures Merging(h, h, p, p + h.cs[p].size, p)
  {
    hide Good, RunOk, Untouched, LiveOf;
    WhereFree(h, {}, p);
    RunOne(h, {}, p);
    UntouchedSelf(h, {});
    assert {p} - {p} == {};
  }

  /** The free chunk before a block whose PINUSE is clear: where it is and which list holds it. */
  ghost predicate PrevFound(h: Heap, p: int, prev: int) {
    && prev in h.cs && h.cs[prev].kind.Free? && h.cs[prev].pin && prev < p && prev + h.cs[prev].size == p && prev != 0
    && (prev != h.dv ==> prev in h.ix.sizes && h.ix.sizes[prev] == h.cs[prev].size)
    && (prev == h.dv ==> h.dvsize == h.cs[prev].size)
  }

  lemma FindPrev(h: Heap, p: int)
    requires Good(h, {}) && p in h.cs && h.cs[p].kind.Live? && !h.cs[p].pin
    ensures p in h.m && PrevFound(h, p, p - h.m[p])
  {
    hide Good;
    ReadPrev(h, {}, p);
    WhereFree(h, {}, p - h.m[p]);
  }

  lemma MergePrev(h: Heap, h1: Heap, prev: int, p: int)
    requires Good(h1, {prev}) && h1.cs == h.cs && p in h.cs && h.cs[p].kind.Live?
    requires prev in h.cs && h.cs[prev].kind.Free? && h.cs[prev].pin && prev < p && prev + h.cs[prev].size == p
    requires Untouched(h.m, h1.m, LiveOf(h.cs))
    ensures Merging(h, h1, prev, p + h.cs[p].size, p)
  {
    hide Good, RunOk, Untouched, LiveOf;
    WhereFree(h1, {prev}, p);
    WhereFree(h1, {prev}, prev);
    RunOne(h1, {prev}, p);
    RunOne(h1, {prev}, prev);
    RunJoin(h1, prev, p, p + h.cs[p].size, {prev}, {p});
    assert {prev} + {p} == {prev, p} && {prev, p} - {p} == {prev};
  }

  lemma MergeReads(h: Heap, h1: Heap, lo: int, n: int, p: int)
    requires Merging(h, h1, lo, n, p)
    ensures BehindMerge(h, h1, lo, n, p)
  {
    hide Good, RunOk, Untouched, LiveOf, Cinuse, Pinuse, InuseBits, Size;
    var holes := Merged(lo, p) - {p};
    ReadNext(h1, holes, p);
    ReadTags(h1, holes, n);
    ReadTags(h1, holes, p);
    ReadTags(h1, holes, lo);
    assert n > p && n - lo >= MIN_CHUNK_SIZE;
    WhereFree(h1, holes, n);
  }

  /** The chunk behind a merge: where it is and which list or role holds it. */
  ghost predicate BehindMerge(h: Heap, h1: Heap, lo: int, n: int, p: int) {
    && h1.cs == h.cs && p in h.cs && n == p + h.cs[p].size && lo <= p
    && n in h.cs && TagReads(h1.m, n, h.cs[n]) && !h.cs[n].kind.Foot? && !h.cs[n].kind.Fence? && h.cs[n].pin
    && (h.cs[n].kind.Free? <==> n in h1.ix.sizes || (n == h1.dv && h1.dv != 0))
    && (h.cs[n].kind.Top? <==> n == h1.top)
    && (n in h1.ix.sizes ==> h1.ix.sizes[n] == h.cs[n].size)
    && (n == h1.dv ==> h1.dv != 0 && h.cs[n].size == h1.dvsize)
    && (n == h1.top ==> h.cs[n].size == h1.topsize)
    && n > lo && n !in Merged(lo, p)
    && lo % 16 == 0 && HEAP_START <= lo && (n - lo) % 16 == 0 && n - lo >= MIN_CHUNK_SIZE
  }

  lemma MergingGood(h: Heap, h1: Heap, lo: int, n: int, p: int)
    requires Merging(h, h1, lo, n, p)
    ensures Good(h1, Merged(lo, p) - {p}) && h1.cs == h.cs && lo in h.cs && p in h.cs && lo <= p
    ensures lo < p ==> h.cs[lo].kind.Free? && Merged(lo, p) - {p} == {lo}
    ensures Untouched(h1.m, h1.m, LiveOf(h.cs))
  {
    hide Good, RunOk, Untouched, LiveOf;
    UntouchedSelf(h1, Merged(lo, p) - {p});
  }

  lemma MergedLive(h: Heap, lo: int, p: int, more: set<int>)
    requires p in h.cs && lo in h.cs && (lo != p ==> h.cs[lo].kind.Free?)
    requires forall a :: a in more ==> a in h.cs && !h.cs[a].kind.Live?
    ensures LiveOf(h.cs) - (Merged(lo, p) + more) == LiveOf(h.cs) - {p}
  {
    var gone := Merged(lo, p) + more;
    forall a | a in gone && a != p
      ensures a !in LiveOf(h.cs)
    {
      assert a in more || a == lo;
    }
    assert p in gone;
    hide Merged;
  }

  lemma UntouchedPart(m: Mem, m1: Mem, m2: Mem, live: map<int, Block>, gone: set<int>)
    requires Untouched(m, m1, live) && Untouched(m1, m2, live - gone)
    ensures Untouched(m, m2, live - gone)
  {
    UntouchedFewer(m, m1, live, live - gone);
    UntouchedTrans(m, m1, m2, live - gone);
  }

  /** The run from `lo` up to `hi` becomes one free chunk in hand. */
  lemma FinishFree(h: Heap, h1: Heap, holes: set<int>, lo: int, hi: int, p: int, more: set<int>)
    requires Good(h1, holes) && RunOk(h1, lo, hi, Merged(lo, p) + more) && holes <= Merged(lo, p) + more
    requires h1.cs == h.cs && p in h.cs && lo in h.cs && (lo != p ==> h.cs[lo].kind.Free?) && h.cs[lo].pin
    requires forall a :: a in more ==> a in h.cs && h.cs[a].kind.Free?
    requires hi in h.cs && Used(h.cs[hi].kind) && h1.top !in Merged(lo, p) + more
    requires MIN_CHUNK_SIZE <= hi - lo && (hi - lo) % 16 == 0
    requires Untouched(h.m, h1.m, LiveOf(h.cs))
    ensures lo + HEAD in h1.m && hi + HEAD in h1.m && hi in h1.m
    ensures Good(FreedRun(h1, lo, hi), {lo}) && Freed(h, FreedRun(h1, lo, hi), p)
    ensures lo in FreedRun(h1, lo, hi).cs && FreedRun(h1, lo, hi).cs[lo].size == hi - lo
  {
    hide Good, RunOk, Untouched, LiveOf, Retile, KindOk, FreedRun;
    var inside := Merged(lo, p) + more;
    FreeKind(hi - lo);
    FreeRun(h1, holes, lo, hi, inside);
    assert holes - inside + {lo} == {lo};
    MergedLive(h, lo, p, more);
    UntouchedPart(h.m, h1.m, FreedRun(h1, lo, hi).m, LiveOf(h.cs), {p});
  }

  /** The chunk behind the block is in use. */
  lemma FinishUsed(h: Heap, h1: Heap, lo: int, n: int, p: int)
    requires Merging(h, h1, lo, n, p) && n in h.cs && Used(h.cs[n].kind)
    ensures lo + HEAD in h1.m && n + HEAD in h1.m && n in h1.m
    ensures Good(FreedRun(h1, lo, n), {lo}) && Freed(h, FreedRun(h1, lo, n), p)
    ensures lo in FreedRun(h1, lo, n).cs && FreedRun(h1, lo, n).cs[lo].size == n - lo
  {
    hide Good, RunOk, Untouched, LiveOf, FreedRun, Freed;
    MergeReads(h, h1, lo, n, p);
    assert Merged(lo, p) + {} == Merged(lo, p);
    assert h1.top !in Merged(lo, p) by { TopNotMerged(h, h1, lo, n, p); }
    FinishFree(h, h1, Merged(lo, p) - {p}, lo, n, p, {});
  }

  lemma TopNotMerged(h: Heap, h1: Heap, lo: int, n: int, p: int)
    requires Merging(h, h1, lo, n, p)
    ensures h1.top !in Merged(lo, p)
  {
    hide Good, RunOk, Untouched, LiveOf;
    WhereFree(h1, Merged(lo, p) - {p}, p);
    WhereFree(h1, Merged(lo, p) - {p}, lo);
  }

  /** The chunk behind the block is free and, by now, in hand too. */
  lemma FinishNext(h: Heap, h1: Heap, h2: Heap, lo: int, n: int, p: int)
    requires Merging(h, h1, lo, n, p) && n in h.cs && h.cs[n].kind.Free?
    requires Good(h2, Merged(lo, p) - {p} + {n}) && h2.cs == h.cs && Untouched(h1.m, h2.m, LiveOf(h.cs))
    ensures var hi := n + h.cs[n].size;
      && lo + HEAD in h2.m && hi in h2.m
      && FreedRun(h2, lo, hi).m == SetSizeAndPinuseOfFreeChunk(h2.m, lo, hi - lo)
      && Good(FreedRun(h2, lo, hi), {lo}) && Freed(h, FreedRun(h2, lo, hi), p)
      && lo in FreedRun(h2, lo, hi).cs && FreedRun(h2, lo, hi).cs[lo].size == hi - lo
  {
    hide Good, RunOk, Untouched, LiveOf, FreedRun, Freed;
    var hi, holes := n + h.cs[n].size, Merged(lo, p) - {p} + {n};
    MergeReads(h, h1, lo, n, p);
    NextInHand(h2, lo, n, p, holes);
    UntouchedTrans(h.m, h1.m, h2.m, LiveOf(h.cs));
    FinishFree(h, h2, holes, lo, hi, p, {n});
    AlreadyClear(h2, lo, hi, p);
  }

  ghost predicate NextReady(h: Heap, lo: int, n: int, p: int, hi: int) {
    && RunOk(h, lo, hi, Merged(lo, p) + {n}) && hi in h.cs && Used(h.cs[hi].kind) && hi > n
    && hi in h.m && hi + HEAD in h.m && !Pinuse(h.m[hi + HEAD]) && (hi - n) % 16 == 0
    && h.top !in Merged(lo, p) + {n}
  }

  lemma NextInHand(h: Heap, lo: int, n: int, p: int, holes: set<int>)
    requires Good(h, holes) && holes == Merged(lo, p) - {p} + {n} && n !in Merged(lo, p)
    requires p in h.cs && h.cs[p].kind.Live? && n == p + h.cs[p].size && lo in h.cs && lo <= p
    requires lo < p ==> h.cs[lo].kind.Free? && lo + h.cs[lo].size == p
    requires n in h.cs && h.cs[n].kind.Free?
    ensures NextReady(h, lo, n, p, n + h.cs[n].size)
  {
    hide Good, RunOk;
    var hi := n + h.cs[n].size;
    HoleRun(h, holes, n);
    WhereFree(h, holes, p);
    WhereFree(h, holes, lo);
    RunOne(h, holes, p);
    RunJoin(h, p, n, hi, {p}, {n});
    if lo < p {
      RunOne(h, holes, lo);
      RunJoin(h, lo, p, hi, {lo}, {p} + {n});
      assert {lo} + ({p} + {n}) == Merged(lo, p) + {n};
    }
  }

  lemma AlreadyClear(h: Heap, lo: int, hi: int, p: int)
    requires hi + HEAD in h.m && !Pinuse(h.m[hi + HEAD])
    ensures FreedRun(h, lo, hi).m == SetSizeAndPinuseOfFreeChunk(h.m, lo, hi - lo)
  {
    hide Retile;
    assert h.m[hi + HEAD := h.m[hi + HEAD]] == h.m;
  }

  /** The chunk behind the block is top. */
  lemma FinishTop(h: Heap, h1: Heap, lo: int, n: int, p: int)
    requires Merging(h, h1, lo, n, p) && n == h1.top && h1.top != 0
    ensures lo + HEAD in h1.m
    ensures var h2 := TopRun(h1, lo, n + h1.topsize); Good(h2, {}) && Freed(h, h2, p)
  {
    hide Good, RunOk, Untouched, LiveOf, TopRun, TagReads;
    var holes, hi := Merged(lo, p) - {p}, n + h1.topsize;
    MergeReads(h, h1, lo, n, p);
    BinnedInCs(h1, holes);
    WhereFree(h1, holes, n);
    ReadNext(h1, holes, n);
    RunOne(h1, holes, n);
    RunJoin(h1, lo, n, hi, Merged(lo, p), {n});
    FreeIntoTop(h1, holes, lo, hi, Merged(lo, p) + {n});
    assert holes - (Merged(lo, p) + {n}) == {};
    MergedLive(h, lo, p, {n});
    UntouchedPart(h.m, h1.m, TopRun(h1, lo, hi).m, LiveOf(h.cs), {p});
  }

  /** Later steps that leave the remaining blocks alone do not show. */
  lemma FreedThen(h: Heap, h1: Heap, h2: Heap, p: int)
    requires Freed(h, h1, p) && LiveOf(h2.cs) == LiveOf(h1.cs) && Untouched(h1.m, h2.m, LiveOf(h1.cs))
    ensures Freed(h, h2, p)
  {
    UntouchedTrans(h.m, h1.m, h2.m, LiveOf(h1.cs));
  }

  lemma LiveIs(h: Heap, p: int)
    requires p in LiveOf(h.cs)
    ensures p in h.cs && h.cs[p].kind.Live? && h.cs[p].size == LiveOf(h.cs)[p].size
  {
  }
}
