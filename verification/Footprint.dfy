/** Segments are disjoint ranges of addresses, so their sizes add up to a machine word. */
module Footprint {
  import opened Words
  import opened Memory
  import opened Tiling
  import opened HeapState
  import opened Segments

  predicate Between(lo: int, hi: int, w: int) { lo <= w < hi }

  function Range(lo: int, hi: int): set<int> { set w | lo <= w < hi && Between(lo, hi, w) }

  lemma {:induction false} RangeSize(lo: int, hi: int)
    requires lo <= hi
    ensures |Range(lo, hi)| == hi - lo
    decreases hi - lo
  {
    if lo == hi {
      assert Range(lo, hi) == {};
    } else {
      RangeSize(lo, hi - 1);
      assert Range(lo, hi) == Range(lo, hi - 1) + {hi - 1};
    }
  }

  function Addresses(segs: seq<Seg>): set<int> {
    if segs == [] then {} else Range(segs[0].base, End(segs[0])) + Addresses(segs[1..])
  }

  ghost predicate Laid(segs: seq<Seg>) {
    && (forall i :: 0 <= i < |segs| ==> HEAP_START <= segs[i].base <= End(segs[i]) < WORD_LIMIT)
    && (forall i, j :: 0 <= i < j < |segs| ==> SegsApart(segs[i], segs[j]))
  }

  lemma {:induction false} AddressesIn(segs: seq<Seg>, w: int)
    ensures w in Addresses(segs) <==> exists i :: 0 <= i < |segs| && InSeg(segs[i], w)
  {
    if segs != [] {
      AddressesIn(segs[1..], w);
      if w in Addresses(segs[1..]) {
        var i :| 0 <= i < |segs[1..]| && InSeg(segs[1..][i], w);
        assert InSeg(segs[i + 1], w);
      } else if w in Range(segs[0].base, End(segs[0])) {
        assert InSeg(segs[0], w);
      }
      if i :| 0 <= i < |segs| && InSeg(segs[i], w) {
        if i > 0 {
          assert InSeg(segs[1..][i - 1], w);
        }
      }
    }
  }

  lemma {:induction false} AddressesSize(segs: seq<Seg>)
    requires Laid(segs)
    ensures |Addresses(segs)| == Total(segs)
  {
    if segs != [] {
      var first, rest := Range(segs[0].base, End(segs[0])), segs[1..];
      assert Laid(rest);
      AddressesSize(rest);
      RangeSize(segs[0].base, End(segs[0]));
      forall w | w in first
        ensures w !in Addresses(rest)
      {
        AddressesIn(rest, w);
      }
    }
  }

  lemma SubsetSize(a: set<int>, b: set<int>)
    requires a <= b
    ensures |a| <= |b|
  {
    assert b == a + (b - a);
  }

  lemma LaidTotal(segs: seq<Seg>)
    requires Laid(segs)
    ensures 0 <= Total(segs) <= WORD_LIMIT - HEAP_START
  {
    AddressesSize(segs);
    forall w | w in Addresses(segs)
      ensures w in Range(HEAP_START, WORD_LIMIT)
    {
      AddressesIn(segs, w);
    }
    SubsetSize(Addresses(segs), Range(HEAP_START, WORD_LIMIT));
    RangeSize(HEAP_START, WORD_LIMIT);
  }

  lemma GoodIsLaid(h: Heap, holes: set<int>)
    requires Good(h, holes)
    ensures Laid(h.segs)
  {
    hide Good;
    forall i | 0 <= i < |h.segs|
      ensures HEAP_START <= h.segs[i].base <= End(h.segs[i]) < WORD_LIMIT
    {
      HeldSeg(h, holes, i);
    }
    forall i, j | 0 <= i < j < |h.segs|
      ensures SegsApart(h.segs[i], h.segs[j])
    {
      SegsApartOf(h, holes, i, j);
    }
  }

  /** The footprint of a valid heap is a machine word. */
  lemma FootprintBound(h: Heap, holes: set<int>)
    requires Good(h, holes)
    ensures 0 <= Total(h.segs) <= WORD_LIMIT - HEAP_START
  {
    hide Good;
    GoodIsLaid(h, holes);
    LaidTotal(h.segs);
  }

  /** Top is part of the footprint. */
  lemma TopInFootprint(h: Heap)
    requires Good(h, {}) && h.top != 0
    ensures h.topsize <= Total(h.segs)
  {
    hide Good;
    Tail(h, {});
    GoodIsLaid(h, {});
    var rest := h.segs[1..];
    assert Laid(rest);
    LaidTotal(rest);
  }

  /** It still is one with a region the system has just supplied, wherever that lies. */
  lemma RegionCounts(h: Heap, m1: Mem, base: int, tsize: int, size: int)
    requires Good(h, {}) && Region(h.m, m1, base, tsize, size)
    ensures 0 <= Total(h.segs) && Total(h.segs) + tsize <= WORD_LIMIT - HEAP_START
  {
    hide Good, Grown, SegsApart;
    var s := Seg(base, tsize, 0);
    GoodIsLaid(h, {});
    forall i | 0 <= i < |h.segs|
      ensures SegsApart(s, h.segs[i])
    {
      HeldSeg(h, {}, i);
      SegNotInRegion(h.m, m1, h.segs[i], base, base + tsize);
      ApartFrom(s, h.segs[i]);
    }
    assert Laid([s] + h.segs);
    LaidTotal([s] + h.segs);
    LaidTotal(h.segs);
    TotalSplit([s], h.segs);
    assert Total([s]) == tsize;
  }

  lemma ApartFrom(s: Seg, t: Seg)
    requires End(t) <= s.base || End(s) <= t.base
    ensures SegsApart(s, t)
  {
  }
}
