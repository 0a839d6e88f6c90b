/**
 The index of free chunks: 32 small bins, each a ring through a header, and 32 bitwise tries whose nodes head
 rings of chunks of equal size. This module says what it means for the words in memory to represent an index,
 and proves what each pattern of writes of the bin operations does to it.
 */
module FreeIndex {
  import opened Words
  import opened Bits
  import opened Memory
  import opened SizeClasses
  import opened Rings

  /**
   The chunks in bins with their sizes; the ring of every small bin, header first; the ring of every trie
   position that holds a node, the node first; and where in the tries each large chunk is.
   */
  datatype Index = Index(
    sizes: map<int, int>,
    small: seq<seq<int>>,
    trie: map<Key, seq<int>>,
    loc: map<int, Key>)

  // ---------- the binned chunks ----------

  /** What the words of a free chunk look like to the index; a large one also has room for tree links. */
  ghost predicate FreeWords(m: Mem, a: int, size: int) {
    && HEAP_START <= a && a % 16 == 0
    && 32 <= size && size % 16 == 0 && a + size < WORD_LIMIT
    && a + HEAD in m && m[a + HEAD] == Head(size, true, false)
    && a + PREV in m && a + NEXT in m
    && (size >= MIN_LARGE_SIZE ==>
          a + LEFT in m && a + RIGHT in m && a + PARENT in m && a + INDEX in m)
  }

  ghost predicate Apart(a: int, asize: int, b: int, bsize: int) {
    a + asize <= b || b + bsize <= a
  }

  ghost predicate SizesOk(m: Mem, sizes: map<int, int>) {
    && (forall a :: a in sizes ==> FreeWords(m, a, sizes[a]))
    && (forall a, b :: a in sizes && b in sizes && a != b ==> Apart(a, sizes[a], b, sizes[b]))
  }

  // ---------- small bins ----------

  ghost predicate SmallBinOk(m: Mem, smallmap: bv32, ix: Index, i: int)
    requires 0 <= i < 32 && |ix.small| == 32
  {
    var r := ix.small[i];
    && |r| > 0 && r[0] == SmallBinAt(i) && Distinct(r)
    && SmallBinAt(i) + PREV in m && SmallBinAt(i) + NEXT in m
    && (Bit(smallmap, i) <==> |r| > 1)
    && (|r| > 1 ==> Ring(m, r))
    && (forall j :: 0 < j < |r| ==> r[j] in ix.sizes && ix.sizes[r[j]] == 8 * i)
  }

  ghost predicate SmallOk(m: Mem, smallmap: bv32, ix: Index) {
    && |ix.small| == 32
    && (forall i :: 0 <= i < 32 ==> SmallBinOk(m, smallmap, ix, i))
    && (forall a :: a in ix.sizes && IsSmall(ix.sizes[a]) ==>
          0 <= SmallIndex(ix.sizes[a]) && a in ix.small[SmallIndex(ix.sizes[a])])
  }

  // ---------- tree bins ----------

  /** The node at a trie position, or null. */
  function NodeAt(trie: map<Key, seq<int>>, k: Key): int {
    if k in trie && trie[k] != [] then trie[k][0] else 0
  }

  /** What the `parent` word of the node at `k` holds; the root's parent is the bin itself. */
  function ParentOf(trie: map<Key, seq<int>>, k: Key): int {
    match k
    case Root(b) => TreeBinAt(b)
    case Kid(up, _) => NodeAt(trie, up)
  }

  ghost predicate MemberOk(m: Mem, ix: Index, k: Key, i: int)
    requires k in ix.trie && 0 <= i < |ix.trie[k]|
  {
    var c := ix.trie[k][i];
    && c in ix.sizes && c in ix.loc && ix.loc[c] == k
    && MIN_LARGE_SIZE <= ix.sizes[c]
    && Owns(k, ix.sizes[c]) && TreeIndex(ix.sizes[c]) == Bin(k)
    && ix.trie[k][0] in ix.sizes && ix.sizes[c] == ix.sizes[ix.trie[k][0]]
    && c + INDEX in m && m[c + INDEX] == Bin(k)
    && c + LEFT in m && c + RIGHT in m && c + PARENT in m
    && (i > 0 ==> m[c + LEFT] == 0 && m[c + RIGHT] == 0 && m[c + PARENT] == 0)
  }

  ghost predicate HeadLinks(m: Mem, trie: map<Key, seq<int>>, k: Key)
    requires k in trie && trie[k] != []
  {
    var u := trie[k][0];
    && u + LEFT in m && m[u + LEFT] == NodeAt(trie, Kid(k, false))
    && u + RIGHT in m && m[u + RIGHT] == NodeAt(trie, Kid(k, true))
    && u + PARENT in m && m[u + PARENT] == ParentOf(trie, k)
    && (k.Kid? ==> k.up in trie)
  }

  ghost predicate NodeOk(m: Mem, ix: Index, k: Key)
    requires k in ix.trie
  {
    && 0 <= Bin(k) < 32 && Exp(k) >= 0
    && Ring(m, ix.trie[k]) && Distinct(ix.trie[k])
    && (forall i :: 0 <= i < |ix.trie[k]| ==> MemberOk(m, ix, k, i))
    && HeadLinks(m, ix.trie, k)
  }

  ghost predicate TreeBinOk(m: Mem, treemap: bv32, ix: Index, b: int)
    requires 0 <= b < 32
  {
    && TreeBinAt(b) in m && m[TreeBinAt(b)] == NodeAt(ix.trie, Root(b))
    && (Bit(treemap, b) <==> Root(b) in ix.trie)
  }

  /** Chunks of one size are members of one node. */
  ghost predicate OneNodePerSize(ix: Index) {
    forall c, d :: c in ix.loc && d in ix.loc && c in ix.sizes && d in ix.sizes && ix.sizes[c] == ix.sizes[d] ==>
      ix.loc[c] == ix.loc[d]
  }

  ghost predicate Located(ix: Index) {
    && OneNodePerSize(ix)
    && (forall c :: c in ix.loc ==>
          && c in ix.sizes && !IsSmall(ix.sizes[c])
          && ix.loc[c] in ix.trie && c in ix.trie[ix.loc[c]])
    && (forall a :: a in ix.sizes && !IsSmall(ix.sizes[a]) ==> a in ix.loc)
  }

  ghost predicate TrieOk(m: Mem, treemap: bv32, ix: Index) {
    && (forall k :: k in ix.trie ==> NodeOk(m, ix, k))
    && (forall b :: 0 <= b < 32 ==> TreeBinOk(m, treemap, ix, b))
    && Located(ix)
  }

  ghost predicate IndexOk(m: Mem, smallmap: bv32, treemap: bv32, ix: Index) {
    && SizesOk(m, ix.sizes)
    && SmallOk(m, smallmap, ix)
    && TrieOk(m, treemap, ix)
  }

  // ---------- frames ----------

  ghost predicate SameTreeWords(m: Mem, m': Mem, c: int) {
    SameAt(m, m', c + LEFT) && SameAt(m, m', c + RIGHT) && SameAt(m, m', c + PARENT) && SameAt(m, m', c + INDEX)
  }

  /** Small bins survive writes that miss their headers and the ring words of small chunks. */
  lemma SmallFrame(m: Mem, m': Mem, smallmap: bv32, ix: Index, ix': Index)
    requires SmallOk(m, smallmap, ix)
    requires ix'.small == ix.small
    requires forall a :: a in ix.sizes && IsSmall(ix.sizes[a]) ==>
      a in ix'.sizes && ix'.sizes[a] == ix.sizes[a] && SameRingWords(m, m', a)
    requires forall a :: a in ix'.sizes && IsSmall(ix'.sizes[a]) ==> a in ix.sizes && ix'.sizes[a] == ix.sizes[a]
    requires forall i :: 0 <= i < 32 ==> SameRingWords(m, m', SmallBinAt(i))
    ensures SmallOk(m', smallmap, ix')
  {
    forall i | 0 <= i < 32
      ensures SmallBinOk(m', smallmap, ix', i)
    {
      hide Bit;
      assert SmallBinOk(m, smallmap, ix, i);
      assert SameRingWords(m, m', SmallBinAt(i));
      var r := ix.small[i];
      if |r| > 1 {
        forall j | 0 <= j < |r|
          ensures SameRingWords(m, m', r[j])
        {
        }
        RingFrame(m, m', r);
      }
    }
  }

  ghost predicate MemberKept(m: Mem, m': Mem, ix: Index, ix': Index, k: Key, i: int)
    requires k in ix.trie && 0 <= i < |ix.trie[k]|
  {
    var c := ix.trie[k][i];
    && c in ix'.sizes && c in ix.sizes && ix'.sizes[c] == ix.sizes[c]
    && c in ix'.loc && c in ix.loc && ix'.loc[c] == ix.loc[c]
    && SameRingWords(m, m', c) && SameAt(m, m', c + INDEX)
    && (i > 0 ==> SameTreeWords(m, m', c))
  }

  /** A node survives writes that miss its members, given that its head's tree links are right. */
  lemma NodeFrame(m: Mem, m': Mem, ix: Index, ix': Index, k: Key)
    requires k in ix.trie && NodeOk(m, ix, k)
    requires k in ix'.trie && ix'.trie[k] == ix.trie[k]
    requires forall i :: 0 <= i < |ix.trie[k]| ==> MemberKept(m, m', ix, ix', k, i)
    requires HeadLinks(m', ix'.trie, k)
    ensures NodeOk(m', ix', k)
  {
    forall i | 0 <= i < |ix.trie[k]|
      ensures SameRingWords(m, m', ix.trie[k][i])
    {
      assert MemberKept(m, m', ix, ix', k, i);
    }
    RingFrame(m, m', ix.trie[k]);
    forall i | 0 <= i < |ix.trie[k]|
      ensures MemberOk(m', ix', k, i)
    {
      hide Owns, TreeIndex, Bin;
      assert MemberKept(m, m', ix, ix', k, i) && MemberKept(m, m', ix, ix', k, 0);
      assert MemberOk(m, ix, k, i);
      assert MemberOk(m, ix, k, 0);
    }
  }

  ghost predicate SameChunk(m: Mem, m': Mem, ix: Index, ix': Index, c: int) {
    && c in ix.sizes && c in ix'.sizes && ix'.sizes[c] == ix.sizes[c]
    && c in ix.loc && c in ix'.loc && ix'.loc[c] == ix.loc[c]
    && SameRingWords(m, m', c) && SameTreeWords(m, m', c)
  }

  /** A node survives writes that miss its members, when the nodes around it stay where they are. */
  lemma NodeUntouched(m: Mem, m': Mem, ix: Index, ix': Index, k: Key)
    requires k in ix.trie && NodeOk(m, ix, k)
    requires k in ix'.trie && ix'.trie[k] == ix.trie[k]
    requires forall i :: 0 <= i < |ix.trie[k]| ==> SameChunk(m, m', ix, ix', ix.trie[k][i])
    requires NodeAt(ix'.trie, Kid(k, false)) == NodeAt(ix.trie, Kid(k, false))
    requires NodeAt(ix'.trie, Kid(k, true)) == NodeAt(ix.trie, Kid(k, true))
    requires ParentOf(ix'.trie, k) == ParentOf(ix.trie, k) && (k.Kid? ==> k.up in ix'.trie)
    ensures NodeOk(m', ix', k)
  {
    hide Distinct, NodeAt, ParentOf, Bin, Exp, MemberOk;
    assert SameChunk(m, m', ix, ix', ix.trie[k][0]);
    forall i | 0 <= i < |ix.trie[k]|
      ensures MemberKept(m, m', ix, ix', k, i)
    {
      assert SameChunk(m, m', ix, ix', ix.trie[k][i]);
    }
    NodeFrame(m, m', ix, ix', k);
  }

  lemma MembersLocated(m: Mem, ix: Index, k: Key, i: int)
    requires k in ix.trie && NodeOk(m, ix, k) && 0 <= i < |ix.trie[k]|
    ensures var c := ix.trie[k][i];
      && c in ix.loc && ix.loc[c] == k && c in ix.sizes && MIN_LARGE_SIZE <= ix.sizes[c]
  {
    assert MemberOk(m, ix, k, i);
  }

  /** The tries survive writes that miss the bins and the large chunks. */
  lemma TrieFrame(m: Mem, m': Mem, treemap: bv32, ix: Index, ix': Index)
    requires TrieOk(m, treemap, ix)
    requires ix'.trie == ix.trie && ix'.loc == ix.loc
    requires forall a :: a in ix.loc ==> SameChunk(m, m', ix, ix', a)
    requires forall a :: a in ix'.sizes && !IsSmall(ix'.sizes[a]) ==> a in ix.loc
    requires forall b :: 0 <= b < 32 ==> SameAt(m, m', TreeBinAt(b))
    ensures TrieOk(m', treemap, ix')
  {
    forall k | k in ix'.trie
      ensures NodeOk(m', ix', k)
    {
      hide SameChunk, NodeAt, ParentOf, HeadLinks, IsSmall, TreeBinOk;
      assert NodeOk(m, ix, k);
      hide NodeOk;
      NodeHasParent(m, ix, k);
      forall i | 0 <= i < |ix.trie[k]|
        ensures SameChunk(m, m', ix, ix', ix.trie[k][i])
      {
        MembersLocated(m, ix, k, i);
      }
      NodeUntouched(m, m', ix, ix', k);
    }
    forall b | 0 <= b < 32
      ensures TreeBinOk(m', treemap, ix', b)
    {
      hide Bit, NodeOk, Located;
      assert TreeBinOk(m, treemap, ix, b);
      assert SameAt(m, m', TreeBinAt(b));
    }
  }

  lemma NodeHasParent(m: Mem, ix: Index, k: Key)
    requires k in ix.trie && NodeOk(m, ix, k)
    ensures ix.trie[k] != [] && (k.Kid? ==> k.up in ix.trie)
  {
  }

  /** The new chunk may be added: it looks free and overlaps no binned chunk. */
  ghost predicate CanAdd(m: Mem, ix: Index, c: int, size: int) {
    c !in ix.sizes && SizesOk(m, ix.sizes[c := size])
  }

  lemma LocatedOf(m: Mem, treemap: bv32, ix: Index)
    requires TrieOk(m, treemap, ix)
    ensures Located(ix)
  {
  }
}
