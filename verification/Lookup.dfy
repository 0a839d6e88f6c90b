/** Why `bin_find` of src/dlmalloc.c finds a chunk exactly if it is in a bin. */
module Lookup {
  import Words
  import opened Bits
  import opened Memory
  import opened SizeClasses
  import opened Rings
  import opened FreeIndex
  import opened TrieOps
  import opened IndexReads
  import opened BestFit

  /** If `x` is in a trie with this size, it is at or below `k`. */
  ghost predicate OnPath(ix: Index, size: int, x: int, k: Key) {
    x in ix.loc && SizeOf(ix, x) == size ==> Under(k, ix.loc[x])
  }

  lemma PathStarts(ix: Index, size: int, x: int, b: int)
    requires Shape(ix) && 0 <= size && b == TreeIndex(size)
    ensures OnPath(ix, size, x, Root(b)) && (x in ix.loc && SizeOf(ix, x) == size ==> Root(b) in ix.trie)
  {
    hide TreeIndex, Owns;
    if x in ix.loc && SizeOf(ix, x) == size {
      ChunkFacts(ix, x);
      RootCoversBin(ix, b, x);
    }
  }

  /** A node of another size is passed on the side where the size belongs. */
  lemma PathGoesOn(ix: Index, size: int, x: int, k: Key)
    requires Shape(ix) && k in ix.trie && Exp(k) >= 1 && Owns(k, size) && SizeAt(ix, k) != size
    requires OnPath(ix, size, x, k)
    ensures OnPath(ix, size, x, Towards(k, size))
    ensures x in ix.loc && SizeOf(ix, x) == size ==> Towards(k, size) in ix.trie
  {
    hide TreeIndex, Bin, Exp, Lo, Hi;
    if x in ix.loc && SizeOf(ix, x) == size {
      ChunkFacts(ix, x);
      var side := UnderKid(k, ix.loc[x]);
      UnderInside(Kid(k, side), ix.loc[x]);
      OwnsMeans(ix.loc[x], size);
      KidsHalve(k);
      OccupiedAbove(ix, Kid(k, side), ix.loc[x]);
      SideIs(k, side, size);
    }
  }

  lemma SideIs(k: Key, side: bool, size: int)
    requires Exp(k) >= 1 && Lo(Kid(k, side)) <= size < Hi(Kid(k, side))
    ensures Towards(k, size) == Kid(k, side)
  {
    KidsHalve(k);
  }

  /** The node of the size has the chunk in its ring, if any node has. */
  lemma AtNode(m: Mem, smallmap: bv32, treemap: bv32, ix: Index, size: int, x: int, k: Key)
    requires IndexOk(m, smallmap, treemap, ix) && k in ix.trie && SizeAt(ix, k) == size
    ensures x in ix.trie[k] <==> x in ix.loc && SizeOf(ix, x) == size
    ensures Ring(m, ix.trie[k]) && Distinct(ix.trie[k]) && ix.trie[k] != []
  {
    hide IndexOk, TrieOk, NodeOk, MemberOk, Ring, Distinct;
    TrieOf(m, smallmap, treemap, ix);
    TrieNode(m, treemap, ix, k);
    NodeRing(m, ix, k);
    ReadNode(m, smallmap, treemap, ix, k);
    LocatedOf(m, treemap, ix);
    if x in ix.trie[k] {
      var i :| 0 <= i < |ix.trie[k]| && ix.trie[k][i] == x;
      NodeMember(m, ix, k, i);
      MemberSize(m, ix, k, i);
    }
  }

  lemma MemberSize(m: Mem, ix: Index, k: Key, i: int)
    requires k in ix.trie && 0 <= i < |ix.trie[k]| && MemberOk(m, ix, k, i)
    ensures ix.trie[k][i] in ix.loc && SizeOf(ix, ix.trie[k][i]) == SizeOf(ix, ix.trie[k][0])
    ensures ix.trie[k][0] in ix.sizes
  {
    hide Owns, TreeIndex, Bin;
  }

  /** A small chunk is in its bin's ring, which holds chunks of that size only. */
  lemma InSmallBin(m: Mem, smallmap: bv32, treemap: bv32, ix: Index, size: int, x: int)
    requires IndexOk(m, smallmap, treemap, ix) && 0 <= size && IsSmall(size) && HEAP_START <= x
    requires x in ix.sizes ==> ix.sizes[x] == size
    ensures var r := ix.small[SmallIndex(size)];
      && |ix.small| == 32 && r != [] && r[0] == SmallBinAt(SmallIndex(size)) && Distinct(r)
      && (|r| > 1 ==> Ring(m, r)) && (x in r <==> x in ix.sizes) && (x in ix.sizes ==> |r| > 1)
      && (|r| > 1 <==> Bit(smallmap, SmallIndex(size)))
  {
    hide SizesOk, TrieOk, Bit, Ring, Distinct;
    var i := SmallIndex(size);
    assert SmallBinOk(m, smallmap, ix, i);
  }

  /** A chunk's own head says which bin to look in. */
  lemma HeadTells(m: Mem, smallmap: bv32, treemap: bv32, ix: Index, x: int)
    requires IndexOk(m, smallmap, treemap, ix) && x in ix.sizes
    ensures x + HEAD in m && ix.sizes[x] == Words.Size(m[x + HEAD])
    ensures x in ix.loc <==> !IsSmall(ix.sizes[x])
  {
    hide SmallOk, NodeOk, TreeBinOk, OneNodePerSize;
    ReadChunk(m, ix.sizes, x);
  }

  lemma LocatedIsLarge(m: Mem, smallmap: bv32, treemap: bv32, ix: Index, x: int)
    requires IndexOk(m, smallmap, treemap, ix) && x in ix.loc
    ensures x in ix.sizes && !IsSmall(ix.sizes[x])
  {
    hide SizesOk, SmallOk, NodeOk, TreeBinOk, OneNodePerSize;
  }
}
