/** What linking a chunk into a small bin, and unlinking one, does to the index. */
module SmallBins {
  import opened Bits
  import opened Memory
  import opened SizeClasses
  import opened Rings
  import opened FreeIndex

  function AddSmall(ix: Index, c: int, size: int): Index
    requires |ix.small| == 32 && 0 <= SmallIndex(size) < 32
  {
    var i := SmallIndex(size);
    ix.(sizes := ix.sizes[c := size], small := ix.small[i := ix.small[i] + [c]])
  }

  function DropSmall(ix: Index, i: int, j: int): Index
    requires |ix.small| == 32 && 0 <= i < 32 && 0 <= j < |ix.small[i]|
  {
    var r := ix.small[i];
    ix.(sizes := ix.sizes - {r[j]}, small := ix.small[i := RemoveAt(r, j)])
  }

  /** `c` looks free and overlaps no binned chunk. */
  ghost predicate Outside(m: Mem, ix: Index, c: int, size: int) {
    && FreeWords(m, c, size)
    && c !in ix.sizes
    && (forall a :: a in ix.sizes ==> Apart(a, ix.sizes[a], c, size))
  }

  /** A header, or a chunk of bin `i` that is in the index. */
  ghost predicate InBin(ix: Index, i: int, x: int) {
    x == SmallBinAt(i) || (x in ix.sizes && ix.sizes[x] == 8 * i)
  }

  /** Writes to ring words of bin `i` and of a chunk `c` outside the index miss every word of the tries. */
  lemma SmallWritesMissTries(m: Mem, m': Mem, ix: Index, ix': Index, treemap: bv32, i: int, x: int, y: int, c: int)
    requires SizesOk(m, ix.sizes) && TrieOk(m, treemap, ix)
    requires 0 <= i < 32 && InBin(ix, i, x) && InBin(ix, i, y)
    requires c in ix.sizes ==> ix.sizes[c] < MIN_LARGE_SIZE
    requires c !in ix.sizes ==> HEAP_START <= c && c % 16 == 0 && forall a :: a in ix.sizes ==>
      Apart(a, ix.sizes[a], c, 32)
    requires m'.Keys == m.Keys
    requires forall w :: w in m && w != x + PREV && w != y + NEXT && w != c + PREV && w != c + NEXT ==> m'[w] == m[w]
    requires ix'.trie == ix.trie && ix'.loc == ix.loc
    requires forall a :: a in ix.loc ==> a in ix'.sizes && ix'.sizes[a] == ix.sizes[a]
    requires forall a :: a in ix'.sizes && !IsSmall(ix'.sizes[a]) ==> a in ix.loc
    ensures TrieOk(m', treemap, ix')
  {
    hide OneNodePerSize;
    forall a | a in ix.loc
      ensures SameChunk(m, m', ix, ix', a)
    {
      hide NodeOk, TreeBinOk, OneNodePerSize;
      assert FreeWords(m, a, ix.sizes[a]);
      assert x != a && y != a && c != a;
    }
    forall b | 0 <= b < 32
      ensures SameAt(m, m', TreeBinAt(b))
    {
      hide NodeOk, Bit;
      assert TreeBinOk(m, treemap, ix, b);
    }
    hide NodeOk, TreeBinOk, SameChunk, SameAt;
    TrieFrame(m, m', treemap, ix, ix');
  }

  /** Linking a small chunk in adds exactly that chunk to the index. */
  lemma InsertSmall(m: Mem, smallmap: bv32, smallmap': bv32, treemap: bv32, ix: Index, c: int, size: int)
    requires IndexOk(m, smallmap, treemap, ix)
    requires IsSmall(size) && 0 <= SmallIndex(size) && CanAdd(m, ix, c, size)
    requires forall b :: 0 <= b < 32 ==> (Bit(smallmap', b) <==> b == SmallIndex(size) || Bit(smallmap, b))
    ensures IndexOk(LinkLast(m, ix.small[SmallIndex(size)], c), smallmap', treemap, AddSmall(ix, c, size))
  {
    var i := SmallIndex(size);
    var r := ix.small[i];
    var m', ix' := LinkLast(m, r, c), AddSmall(ix, c, size);
    hide Bit, SizesOk, TrieOk;
    OutsideOf(m, ix, c, size);
    BinEnds(m, smallmap, ix, i);
    assert SmallOk(m', smallmap', ix') by { InsertedRing(m, smallmap, smallmap', ix, c, size); }
    hide SmallOk;
    var h, f := r[0], r[|r| - 1];
    assert m'.Keys == m.Keys;
    assert SizesOk(m', ix'.sizes) by { InsertedSizes(m, m', ix, i, h, f, c, size); }
    assert TrieOk(m', treemap, ix') by {
      forall a | a in ix.sizes
        ensures Apart(a, ix.sizes[a], c, 32)
      {
        assert Apart(a, ix.sizes[a], c, size);
      }
      LocatedOf(m, treemap, ix);
      SmallWritesMissTries(m, m', ix, ix', treemap, i, h, f, c);
    }
  }

  lemma OutsideOf(m: Mem, ix: Index, c: int, size: int)
    requires CanAdd(m, ix, c, size)
    ensures Outside(m, ix, c, size)
  {
    var sizes' := ix.sizes[c := size];
    assert FreeWords(m, c, sizes'[c]);
    forall a | a in ix.sizes
      ensures Apart(a, ix.sizes[a], c, size)
    {
      assert Apart(a, sizes'[a], c, sizes'[c]);
    }
  }

  /** Both ends of a small bin's ring are the header or chunks of the bin, with their ring words in memory. */
  lemma BinEnds(m: Mem, smallmap: bv32, ix: Index, i: int)
    requires SmallOk(m, smallmap, ix) && 0 <= i < 32
    ensures var r := ix.small[i];
      && r != [] && InBin(ix, i, r[0]) && InBin(ix, i, r[|r| - 1])
      && r[0] + PREV in m && r[|r| - 1] + NEXT in m
  {
    hide Bit, Distinct;
    assert SmallBinOk(m, smallmap, ix, i);
    var r := ix.small[i];
    if |r| > 1 {
      RingNeighbours(m, r, |r| - 1);
    }
  }

  lemma InsertedSizes(m: Mem, m': Mem, ix: Index, i: int, h: int, f: int, c: int, size: int)
    requires SizesOk(m, ix.sizes) && Outside(m, ix, c, size) && IsSmall(size)
    requires 0 <= i < 32 && InBin(ix, i, h) && InBin(ix, i, f)
    requires m'.Keys == m.Keys
    requires forall w :: w in m && w != h + PREV && w != f + NEXT && w != c + PREV && w != c + NEXT ==> m'[w] == m[w]
    ensures SizesOk(m', ix.sizes[c := size])
  {
    var sizes' := ix.sizes[c := size];
    forall a | a in sizes'
      ensures FreeWords(m', a, sizes'[a])
    {
      if a != c {
        assert FreeWords(m, a, ix.sizes[a]);
      }
      if h in ix.sizes {
        assert FreeWords(m, h, ix.sizes[h]);
      }
      if f in ix.sizes {
        assert FreeWords(m, f, ix.sizes[f]);
      }
    }
  }

  /** A header or chunk of one bin is in no other bin's ring. */
  lemma NotInOtherBin(m: Mem, smallmap: bv32, ix: Index, b: int, i: int, x: int)
    requires SizesOk(m, ix.sizes) && SmallOk(m, smallmap, ix)
    requires 0 <= b < 32 && 0 <= i < 32 && b != i && InBin(ix, i, x)
    ensures x !in ix.small[b] && x % 16 == 0
  {
    hide Bit, Ring, Distinct;
    assert SmallBinOk(m, smallmap, ix, b);
    var r := ix.small[b];
    if x in ix.sizes {
      assert FreeWords(m, x, ix.sizes[x]);
    }
    forall j | 0 <= j < |r|
      ensures r[j] != x
    {
      if j > 0 {
        assert FreeWords(m, r[j], ix.sizes[r[j]]);
      }
    }
  }

  lemma InsertedRing(m: Mem, smallmap: bv32, smallmap': bv32, ix: Index, c: int, size: int)
    requires SizesOk(m, ix.sizes) && SmallOk(m, smallmap, ix)
    requires IsSmall(size) && Outside(m, ix, c, size)
    requires forall b :: 0 <= b < 32 ==> (Bit(smallmap', b) <==> b == SmallIndex(size) || Bit(smallmap, b))
    ensures SmallOk(LinkLast(m, ix.small[SmallIndex(size)], c), smallmap', AddSmall(ix, c, size))
  {
    hide Bit;
    var i := SmallIndex(size);
    var r := ix.small[i];
    var m', ix' := LinkLast(m, r, c), AddSmall(ix, c, size);
    assert SmallBinOk(m, smallmap, ix, i);
    assert c !in r;
    assert Distinct(r + [c]);
    if |r| > 1 {
      RingNeighbours(m, r, 0);
      RingNeighbours(m, r, |r| - 1);
    }
    assert forall j :: 0 < j < |r| ==> FreeWords(m, r[j], ix.sizes[r[j]]);
    LinkLastRing(m, r, c);
    forall b | 0 <= b < 32
      ensures SmallBinOk(m', smallmap', ix', b)
    {
      if b != i {
        NotInOtherBin(m, smallmap, ix, b, i, r[0]);
        NotInOtherBin(m, smallmap, ix, b, i, r[|r| - 1]);
        NewIsInNoBin(m, smallmap, ix, b, c, size);
        assert SmallBinOk(m, smallmap, ix, b);
        OtherSmallBin(m, m', smallmap, smallmap', ix, ix', b, r[0], r[|r| - 1], c);
      }
    }
    InsertedIsFound(smallmap, m, ix, c, size);
  }

  lemma InsertedIsFound(smallmap: bv32, m: Mem, ix: Index, c: int, size: int)
    requires SmallOk(m, smallmap, ix) && IsSmall(size) && 0 <= SmallIndex(size)
    ensures var ix' := AddSmall(ix, c, size);
      forall a :: a in ix'.sizes && IsSmall(ix'.sizes[a]) ==>
        0 <= SmallIndex(ix'.sizes[a]) && a in ix'.small[SmallIndex(ix'.sizes[a])]
  {
    hide SmallBinOk;
    var ix' := AddSmall(ix, c, size);
    var r := ix.small[SmallIndex(size)];
    forall a | a in ix'.sizes && IsSmall(ix'.sizes[a])
      ensures 0 <= SmallIndex(ix'.sizes[a]) && a in ix'.small[SmallIndex(ix'.sizes[a])]
    {
      if a == c {
        assert (r + [c])[|r|] == c;
      } else {
        var k := SmallIndex(ix.sizes[a]);
        var j :| 0 <= j < |ix.small[k]| && ix.small[k][j] == a;
        assert ix'.small[k][j] == a;
      }
    }
  }

  lemma NewIsInNoBin(m: Mem, smallmap: bv32, ix: Index, b: int, c: int, size: int)
    requires SmallOk(m, smallmap, ix) && Outside(m, ix, c, size) && 0 <= b < 32
    ensures c !in ix.small[b]
  {
    hide Bit, Ring, Distinct;
    assert SmallBinOk(m, smallmap, ix, b);
  }

  /** Writes to ring words outside a small bin's ring miss that bin. */
  lemma OtherSmallBin(m: Mem, m': Mem, smallmap: bv32, smallmap': bv32, ix: Index, ix': Index, b: int, x: int, y: int,
                      c: int)
    requires 0 <= b < 32 && |ix.small| == 32 && SmallBinOk(m, smallmap, ix, b)
    requires x % 16 == 0 && y % 16 == 0 && c % 16 == 0
    requires x !in ix.small[b] && y !in ix.small[b] && c !in ix.small[b]
    requires m'.Keys == m.Keys
    requires forall w :: w in m && w != x + PREV && w != y + NEXT && w != c + PREV && w != c + NEXT ==> m'[w] == m[w]
    requires |ix'.small| == 32 && ix'.small[b] == ix.small[b]
    requires forall a :: a in ix.small[b] && a in ix.sizes ==> a in ix'.sizes && ix'.sizes[a] == ix.sizes[a]
    requires Bit(smallmap', b) <==> Bit(smallmap, b)
    ensures SmallBinOk(m', smallmap', ix', b)
  {
    hide Bit;
    var r := ix.small[b];
    if |r| > 1 {
      forall j | 0 <= j < |r|
        ensures SameRingWords(m, m', r[j])
      {
        RingNeighbours(m, r, j);
      }
      RingFrame(m, m', r);
    }
  }

  /** Unlinking element `j` of bin `i`, or clearing the bin's bit when it is the only chunk, drops exactly it. */
  lemma RemoveSmall(m: Mem, m': Mem, smallmap: bv32, smallmap': bv32, treemap: bv32, ix: Index, i: int, j: int)
    requires IndexOk(m, smallmap, treemap, ix)
    requires 0 <= i < 32 && 0 < j < |ix.small[i]|
    requires |ix.small[i]| == 2 ==>
      m' == m && forall b :: 0 <= b < 32 ==> (Bit(smallmap', b) <==> b != i && Bit(smallmap, b))
    requires |ix.small[i]| > 2 ==> m' == UnlinkAt(m, ix.small[i], j) && smallmap' == smallmap
    ensures IndexOk(m', smallmap', treemap, DropSmall(ix, i, j))
  {
    var ix' := DropSmall(ix, i, j);
    var r := ix.small[i];
    var f, b, c := r[Pred(|r|, j)], r[Succ(|r|, j)], r[j];
    hide Bit, SizesOk, TrieOk;
    Neighbourhood(m, smallmap, ix, i, j);
    assert SmallOk(m', smallmap', ix') by { RemovedRing(m, m', smallmap, smallmap', ix, i, j); }
    hide SmallOk;
    assert m'.Keys == m.Keys;
    assert SizesOk(m', ix'.sizes) by { RemovedSizes(m, m', ix, i, f, b, c); }
    assert TrieOk(m', treemap, ix') by {
      LocatedOf(m, treemap, ix);
      SmallWritesMissTries(m, m', ix, ix', treemap, i, b, f, c);
    }
  }

  lemma Neighbourhood(m: Mem, smallmap: bv32, ix: Index, i: int, j: int)
    requires SmallOk(m, smallmap, ix) && 0 <= i < 32 && 0 < j < |ix.small[i]|
    ensures var r := ix.small[i];
      var f, b := r[Pred(|r|, j)], r[Succ(|r|, j)];
      && InBin(ix, i, f) && InBin(ix, i, b) && f + NEXT in m && b + PREV in m
      && r[j] in ix.sizes && ix.sizes[r[j]] == 8 * i
  {
    hide Bit;
    assert SmallBinOk(m, smallmap, ix, i);
    var r := ix.small[i];
    RingNeighbours(m, r, Pred(|r|, j));
    RingNeighbours(m, r, Succ(|r|, j));
  }

  lemma RemovedSizes(m: Mem, m': Mem, ix: Index, i: int, f: int, b: int, c: int)
    requires SizesOk(m, ix.sizes)
    requires 0 <= i < 32 && InBin(ix, i, f) && InBin(ix, i, b)
    requires m'.Keys == m.Keys
    requires forall w :: w in m && w != f + NEXT && w != b + PREV ==> m'[w] == m[w]
    ensures SizesOk(m', ix.sizes - {c})
  {
    var sizes' := ix.sizes - {c};
    forall a | a in sizes'
      ensures FreeWords(m', a, sizes'[a])
    {
      assert FreeWords(m, a, ix.sizes[a]);
      assert f in ix.sizes ==> FreeWords(m, f, ix.sizes[f]);
      assert b in ix.sizes ==> FreeWords(m, b, ix.sizes[b]);
    }
  }

  lemma RemovedRing(m: Mem, m': Mem, smallmap: bv32, smallmap': bv32, ix: Index, i: int, j: int)
    requires SizesOk(m, ix.sizes) && SmallOk(m, smallmap, ix)
    requires 0 <= i < 32 && 0 < j < |ix.small[i]|
    requires |ix.small[i]| == 2 ==>
      m' == m && forall b :: 0 <= b < 32 ==> (Bit(smallmap', b) <==> b != i && Bit(smallmap, b))
    requires |ix.small[i]| > 2 ==> m' == UnlinkAt(m, ix.small[i], j) && smallmap' == smallmap
    ensures SmallOk(m', smallmap', DropSmall(ix, i, j))
  {
    hide Bit, SizesOk;
    var ix' := DropSmall(ix, i, j);
    var r := ix.small[i];
    var f, p := r[Pred(|r|, j)], r[Succ(|r|, j)];
    Neighbourhood(m, smallmap, ix, i, j);
    assert SmallBinOk(m, smallmap, ix, i);
    forall b | 0 <= b < 32
      ensures SmallBinOk(m', smallmap', ix', b)
    {
      if b == i {
        RemovedFromBin(m, m', smallmap, smallmap', ix, i, j);
      } else {
        NotInOtherBin(m, smallmap, ix, b, i, p);
        NotInOtherBin(m, smallmap, ix, b, i, f);
        NotInOtherBin(m, smallmap, ix, b, i, r[j]);
        assert SmallBinOk(m, smallmap, ix, b);
        OtherSmallBin(m, m', smallmap, smallmap', ix, ix', b, p, f, r[j]);
      }
    }
    DistinctRemove(r, j);
    forall a | a in ix'.sizes && IsSmall(ix'.sizes[a])
      ensures 0 <= SmallIndex(ix'.sizes[a]) && a in ix'.small[SmallIndex(ix'.sizes[a])]
    {
      hide Distinct, Ring, SmallBinOk;
      assert a in ix.sizes && a != r[j];
    }
  }

  lemma RemovedFromBin(m: Mem, m': Mem, smallmap: bv32, smallmap': bv32, ix: Index, i: int, j: int)
    requires |ix.small| == 32 && 0 <= i < 32 && 0 < j < |ix.small[i]| && SmallBinOk(m, smallmap, ix, i)
    requires |ix.small[i]| == 2 ==> m' == m && !Bit(smallmap', i)
    requires |ix.small[i]| > 2 ==> m' == UnlinkAt(m, ix.small[i], j) && smallmap' == smallmap
    ensures SmallBinOk(m', smallmap', DropSmall(ix, i, j), i)
  {
    hide Bit;
    var r := ix.small[i];
    var r' := RemoveAt(r, j);
    DistinctRemove(r, j);
    RingNeighbours(m, r, Pred(|r|, j));
    RingNeighbours(m, r, Succ(|r|, j));
    if |r| > 2 {
      UnlinkAtRing(m, r, j);
    }
    forall k | 0 < k < |r'|
      ensures r'[k] in ix.sizes && ix.sizes[r'[k]] == 8 * i && r'[k] != r[j]
    {
      assert r'[k] == r[if k < j then k else k + 1];
    }
  }
}
