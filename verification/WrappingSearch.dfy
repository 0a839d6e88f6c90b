/** The search of `tmalloc_large` as src/dlmalloc.c has it, with subtractions that may wrap around zero. */
module WrappingSearch {
  import opened Words
  import opened Bits
  import opened Memory
  import opened SizeClasses
  import opened FreeIndex
  import opened IndexReads
  import opened BestFit
  import opened Search
  import opened Allocator

  /** The first loop of `tmalloc_large` in src/dlmalloc.c, lines 4435-4459, whose subtractions may wrap around. */
  method SearchBinWrapping(d: Dlmalloc, nb: int, idx: int) returns (t: int, v: int, rsize: int, ghost top: Key)
    requires d.Indexed() && MIN_LARGE_SIZE <= nb < WORD_LIMIT && idx == TreeIndex(nb) && 0 <= idx < 32
    ensures Descent(t, top, Pick(v, rsize)) == Descend(d.ix, nb, Root(idx), Pick(0, WORD_LIMIT - nb), 0, Root(idx))
    ensures 0 <= rsize <= Minus(0, nb) && (v != 0 ==> rsize == SizeOf(d.ix, v) - nb && SizeOf(d.ix, v) < WORD_LIMIT)
    ensures t != 0 ==> top in d.ix.trie && t == NodeAt(d.ix.trie, top)
  {
    hide IndexOk, TreeIndex, Aligned, Shl, TopBit, Owns, Exp, Lo, Hi, LeftShiftForTreeIndex, Descend, Minus;
    v := 0;
    rsize := Minus(0, nb);
    top := Root(idx);
    MinusWraps(0, nb);
    ReadTreeBin(d.mem, d.smallmap, d.treemap, d.ix, idx);
    ShiftedAtRoot(nb, idx);
    ghost var start := Descend(d.ix, nb, Root(idx), Pick(0, WORD_LIMIT - nb), 0, Root(idx));
    DescendStep(d.ix, nb, Root(idx), Pick(v, rsize), 0, Root(idx));
    t := d.mem[TreeBinAt(idx)];
    if t != 0 {
      var sizebits := Shl(nb, LeftShiftForTreeIndex(idx));
      var rst := 0;
      ghost var rk := Root(idx);
      ghost var key := Root(idx);
      while true
        invariant start == Descend(d.ix, nb, key, Pick(v, rsize), rst, rk)
        invariant key in d.ix.trie && t == NodeAt(d.ix.trie, key)
        invariant Bin(key) == idx && Owns(key, nb) && Aligned(sizebits, nb, key)
        invariant 0 < rsize <= Minus(0, nb)
        invariant v != 0 ==> rsize == SizeOf(d.ix, v) - nb && SizeOf(d.ix, v) < WORD_LIMIT
        invariant rst != 0 ==> rk in d.ix.trie && rst == NodeAt(d.ix.trie, rk)
        decreases Exp(key)
      {
        ReadNode(d.mem, d.smallmap, d.treemap, d.ix, key);
        DescendStep(d.ix, nb, key, Pick(v, rsize), rst, rk);
        var csize := Size(d.mem[t + HEAD]);
        WrappedIsCloser(csize, nb, rsize);
        var trem := Minus(csize, nb);
        if trem < rsize {
          v := t;
          rsize := trem;
          if rsize == 0 {
            top := key;
            break;
          }
        }
        RoomToDescend(key, nb, csize);
        TopBitPicksKid(sizebits, nb, key);
        TowardsOwns(key, nb);
        ReadKid(d.mem, d.smallmap, d.treemap, d.ix, key, false);
        ReadKid(d.mem, d.smallmap, d.treemap, d.ix, key, true);
        KidsDiffer(d.mem, d.smallmap, d.treemap, d.ix, key);
        ghost var below := Towards(key, nb);
        var rt := d.mem[t + RIGHT];
        t := d.mem[t + (if TopBit(sizebits) then RIGHT else LEFT)];
        if rt != 0 && rt != t {
          rst := rt;
          rk := Kid(key, true);
        }
        if t == 0 {
          DescendStep(d.ix, nb, below, Pick(v, rsize), rst, rk);
          t := rst;
          top := rk;
          break;
        }
        key := below;
        sizebits := Shl(sizebits, 1);
      }
    }
  }

  /** The second loop of `tmalloc_large` in src/dlmalloc.c, lines 4468-4475. */
  method SearchLeftWrapping(d: Dlmalloc, nb: int, t0: int, v0: int, rsize0: int, ghost top: Key)
    returns (v: int, rsize: int)
    requires d.Indexed() && MIN_LARGE_SIZE <= nb < WORD_LIMIT && 0 <= rsize0 <= Minus(0, nb)
    requires v0 != 0 ==> rsize0 == SizeOf(d.ix, v0) - nb && SizeOf(d.ix, v0) < WORD_LIMIT
    requires t0 != 0 ==> top in d.ix.trie && t0 == NodeAt(d.ix.trie, top)
    ensures Pick(v, rsize) == if t0 == 0 then Pick(v0, rsize0) else Leftmost(d.ix, nb, top, Pick(v0, rsize0))
    ensures rsize >= 0 && (v != 0 ==> rsize == SizeOf(d.ix, v) - nb && SizeOf(d.ix, v) < WORD_LIMIT)
  {
    hide IndexOk, TreeIndex, Owns, Lo, Hi, Bin, Leftmost, Minus;
    v, rsize := v0, rsize0;
    var t := t0;
    ghost var key := top;
    while t != 0
      invariant t != 0 ==> key in d.ix.trie && t == NodeAt(d.ix.trie, key)
      invariant t0 == 0 ==> t == 0 && v == v0 && rsize == rsize0
      invariant t0 != 0 ==> Leftmost(d.ix, nb, top, Pick(v0, rsize0)) == Leftmost(d.ix, nb, key, Pick(v, rsize))
      invariant t0 != 0 && t == 0 ==> key !in d.ix.trie
      invariant 0 <= rsize <= Minus(0, nb) && (v != 0 ==> rsize == SizeOf(d.ix, v) - nb && SizeOf(d.ix, v) < WORD_LIMIT)
      decreases t != 0, if t != 0 then Exp(key) else 0
    {
      ReadNode(d.mem, d.smallmap, d.treemap, d.ix, key);
      LeftmostStep(d.ix, nb, key, Pick(v, rsize));
      var csize := Size(d.mem[t + HEAD]);
      WrappedIsCloser(csize, nb, rsize);
      var trem := Minus(csize, nb);
      if trem < rsize {
        rsize := trem;
        v := t;
      }
      ReadKid(d.mem, d.smallmap, d.treemap, d.ix, key, false);
      ReadKid(d.mem, d.smallmap, d.treemap, d.ix, key, true);
      if d.mem[t + LEFT] != 0 {
        t := d.mem[t + LEFT];
        key := Kid(key, false);
      } else {
        t := d.mem[t + RIGHT];
        key := Kid(key, true);
      }
      if t != 0 {
        ReadNode(d.mem, d.smallmap, d.treemap, d.ix, key);
      }
    }
    LeftmostStep(d.ix, nb, key, Pick(v, rsize));
  }

  /**
   The choice of `tmalloc_large` in src/dlmalloc.c, lines 4429-4478: null, or the chunk it would split. It is the
   choice of the port, for every index, request and designated victim.
   */
  method ChooseWrapping(d: Dlmalloc, nb: int) returns (v: int)
    requires d.Indexed() && MIN_LARGE_SIZE <= nb < WORD_LIMIT && 0 <= d.dvsize < WORD_LIMIT
    ensures 0 <= TreeIndex(nb) < 32
    ensures var pick := Chosen(d.ix, d.treemap, nb); v == if Taken(pick, nb, d.dvsize) then pick.v else 0
  {
    hide IndexOk, TreeIndex, Bit, One, LeftBits, LeastBit, And, Descend, Leftmost, Minus;
    assert 0 <= TreeIndex(nb) < 32 by { TreeIndexInterval(nb); }
    var idx := TreeIndex(nb);
    var t, rsize: int;
    ghost var top: Key;
    t, v, rsize, top := SearchBinWrapping(d, nb, idx);
    if t == 0 && v == 0 {
      var leftbits := And(LeftBits(One(idx)), d.treemap);
      BinAboveIsLeast(d.treemap, idx);
      if leftbits != 0 {
        var i := TrailingZeros(LeastBit(leftbits));
        ReadTreeBin(d.mem, d.smallmap, d.treemap, d.ix, i);
        top := Root(i);
        t := d.mem[TreeBinAt(i)];
      }
    }
    v, rsize := SearchLeftWrapping(d, nb, t, v, rsize, top);
    WrappedIsTaken(Pick(v, rsize), nb, d.dvsize, SizeOf(d.ix, v));
    if !(v != 0 && rsize < Minus(d.dvsize, nb)) {
      v := 0;
    }
  }
}
