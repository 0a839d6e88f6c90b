/** What inserting a chunk into the tries, and each way of removing one, does to the index. */
module Tries {
  import opened Bits
  import opened Memory
  import opened SizeClasses
  import opened Rings
  import opened FreeIndex

  // ---------- which words the trie operations write ----------

  ghost predicate LargeLink(sizes: map<int, int>, w: int) {
    exists a :: a in sizes && !IsSmall(sizes[a]) && a + PREV <= w <= a + INDEX
  }

  /** Only tree bins and link words of large chunks differ. */
  ghost predicate OnlyTreeWords(m: Mem, m': Mem, sizes: map<int, int>) {
    && m'.Keys == m.Keys
    && forall w :: w in m && m'[w] != m[w] ==> TREEBINS <= w < SEG || LargeLink(sizes, w)
  }

  lemma WriteTreeWord(m0: Mem, m: Mem, sizes: map<int, int>, a: int, w: int, v: int)
    requires OnlyTreeWords(m0, m, sizes)
    requires a in sizes && !IsSmall(sizes[a]) && a + PREV <= w <= a + INDEX && w in m
    ensures OnlyTreeWords(m0, m[w := v], sizes)
  {
  }

  lemma TreeWordsKeepSizes(m: Mem, m': Mem, sizes: map<int, int>)
    requires SizesOk(m, sizes) && OnlyTreeWords(m, m', sizes)
    ensures SizesOk(m', sizes)
  {
    forall a | a in sizes
      ensures FreeWords(m', a, sizes[a])
    {
      assert FreeWords(m, a, sizes[a]);
      forall b | b in sizes && !IsSmall(sizes[b])
        ensures a + HEAD < b + PREV || b + INDEX < a + HEAD
      {
        assert FreeWords(m, b, sizes[b]);
      }
    }
  }

  lemma TreeWordsKeepRings(m: Mem, m': Mem, sizes: map<int, int>, x: int)
    requires SizesOk(m, sizes) && OnlyTreeWords(m, m', sizes)
    requires x in sizes ==> IsSmall(sizes[x])
    requires x !in sizes ==> 0 <= x && x + NEXT < TREEBINS
    requires x + PREV in m && x + NEXT in m
    ensures SameRingWords(m, m', x)
  {
    if x in sizes {
      assert FreeWords(m, x, sizes[x]);
    }
    forall b | b in sizes && !IsSmall(sizes[b])
      ensures x + NEXT < b + PREV || b + INDEX < x + PREV
    {
      assert FreeWords(m, b, sizes[b]);
    }
  }

  lemma TreeWordsKeepSmall(m: Mem, m': Mem, smallmap: bv32, ix: Index, ix': Index, sizes: map<int, int>)
    requires SmallOk(m, smallmap, ix) && SizesOk(m, sizes) && OnlyTreeWords(m, m', sizes)
    requires forall a :: a in ix.sizes && IsSmall(ix.sizes[a]) ==> a in sizes && sizes[a] == ix.sizes[a]
    requires ix'.small == ix.small
    requires forall a :: a in ix.sizes && IsSmall(ix.sizes[a]) ==> a in ix'.sizes && ix'.sizes[a] == ix.sizes[a]
    requires forall a :: a in ix'.sizes && IsSmall(ix'.sizes[a]) ==> a in ix.sizes && ix'.sizes[a] == ix.sizes[a]
    ensures SmallOk(m', smallmap, ix')
  {
    forall a | a in ix.sizes && IsSmall(ix.sizes[a])
      ensures SameRingWords(m, m', a)
    {
      assert FreeWords(m, a, sizes[a]);
      TreeWordsKeepRings(m, m', sizes, a);
    }
    forall i | 0 <= i < 32
      ensures SameRingWords(m, m', SmallBinAt(i))
    {
      hide Bit;
      assert SmallBinOk(m, smallmap, ix, i);
      assert SmallBinAt(i) in sizes ==> FreeWords(m, SmallBinAt(i), sizes[SmallBinAt(i)]);
      TreeWordsKeepRings(m, m', sizes, SmallBinAt(i));
    }
    hide SmallOk, SizesOk, OnlyTreeWords;
    assert SmallOk(m', smallmap, ix') by { SmallFrame(m, m', smallmap, ix, ix'); }
  }

  lemma FewerSizes(m: Mem, sizes: map<int, int>, sizes': map<int, int>)
    requires SizesOk(m, sizes)
    requires forall a :: a in sizes' ==> a in sizes && sizes'[a] == sizes[a]
    ensures SizesOk(m, sizes')
  {
    forall a | a in sizes'
      ensures FreeWords(m, a, sizes'[a])
    {
      assert FreeWords(m, a, sizes[a]);
    }
    forall a, b | a in sizes' && b in sizes' && a != b
      ensures Apart(a, sizes'[a], b, sizes'[b])
    {
      assert Apart(a, sizes[a], b, sizes[b]);
    }
  }

  // ---------- distances ----------

  ghost predicate Far(a: int, b: int) { a + 64 <= b || b + 64 <= a }

  lemma LargeAreFar(m: Mem, sizes: map<int, int>, a: int, b: int)
    requires SizesOk(m, sizes)
    requires a in sizes && b in sizes && a != b && !IsSmall(sizes[a]) && !IsSmall(sizes[b])
    ensures Far(a, b) && HEAP_START <= a && a % 16 == 0
  {
    assert Apart(a, sizes[a], b, sizes[b]) && FreeWords(m, a, sizes[a]) && FreeWords(m, b, sizes[b]);
  }

  /** Where the pointer to the node at `k` is kept: in its bin, or in a child word of the node above. */
  function SlotOf(trie: map<Key, seq<int>>, k: Key): int {
    match k
    case Root(b) => TreeBinAt(b)
    case Kid(up, right) => NodeAt(trie, up) + (if right then RIGHT else LEFT)
  }

  lemma NodeFacts(m: Mem, ix: Index, k: Key)
    requires k in ix.trie && NodeOk(m, ix, k)
    ensures ix.trie[k] != []
    ensures var u := ix.trie[k][0];
      && NodeAt(ix.trie, k) == u && u in ix.loc && ix.loc[u] == k && u in ix.sizes && !IsSmall(ix.sizes[u])
      && HeadLinks(m, ix.trie, k) && 0 <= Bin(k) < 32 && Exp(k) >= 0
      && Owns(k, ix.sizes[u]) && TreeIndex(ix.sizes[u]) == Bin(k) && MIN_LARGE_SIZE <= ix.sizes[u]
      && u + INDEX in m && m[u + INDEX] == Bin(k)
  {
    hide Distinct, Owns, TreeIndex, Bin, Exp;
    assert MemberOk(m, ix, k, 0);
  }

  lemma MemberWords(m: Mem, ix: Index, k: Key, i: int)
    requires k in ix.trie && NodeOk(m, ix, k) && 0 <= i < |ix.trie[k]|
    ensures var e := ix.trie[k][i];
      && e in ix.sizes && e in ix.loc && ix.loc[e] == k && !IsSmall(ix.sizes[e])
      && e + PREV in m && e + NEXT in m && e + LEFT in m && e + RIGHT in m && e + PARENT in m && e + INDEX in m
  {
    hide Owns, TreeIndex, Bin, Exp;
    assert MemberOk(m, ix, k, i);
    RingNeighbours(m, ix.trie[k], i);
  }

  lemma HeadIsFirst(m: Mem, ix: Index, k: Key, i: int)
    requires k in ix.trie && NodeOk(m, ix, k) && 0 <= i < |ix.trie[k]|
    requires ix.trie[k][i] == ix.trie[k][0]
    ensures i == 0
  {
    hide MemberOk, Bin, Exp;
  }

  // ---------- one position changes ----------

  ghost predicate NearAny(xs: set<int>, w: int) {
    exists x :: x in xs && x + PREV <= w <= x + INDEX
  }

  /** `w` is the parent word of one of the two nodes below `k`. */
  ghost predicate KidParent(trie: map<Key, seq<int>>, k: Key, w: int) {
    exists right :: Kid(k, right) in trie && w == NodeAt(trie, Kid(k, right)) + PARENT
  }

  /** Writes made while position `k` changes: its slot, its kids' parent words, and the link words of `xs`. */
  ghost predicate WritesAround(m: Mem, m': Mem, trie: map<Key, seq<int>>, xs: set<int>, k: Key) {
    && m'.Keys == m.Keys
    && forall w :: w in m && m'[w] != m[w] ==> w == SlotOf(trie, k) || KidParent(trie, k, w) || NearAny(xs, w)
  }

  /** The chunks whose links are rewritten are large, and none of them sits at another position. */
  ghost predicate Rewritten(ix: Index, sizes: map<int, int>, xs: set<int>, k: Key) {
    && (forall a :: a in ix.sizes ==> a in sizes && sizes[a] == ix.sizes[a])
    && (forall x :: x in xs ==> x in sizes && !IsSmall(sizes[x]) && (x in ix.loc ==> ix.loc[x] == k))
  }

  /** The part of the trie a change at `k` can touch is in order. */
  ghost predicate AroundOk(m: Mem, ix: Index, k: Key) {
    && 0 <= Bin(k) < 32
    && (k.Kid? ==> k.up in ix.trie && NodeOk(m, ix, k.up))
    && (forall right :: Kid(k, right) in ix.trie ==> NodeOk(m, ix, Kid(k, right)))
  }

  /** Outside position `k`, a member keeps its words, but for its slot for `k` and its parent word below `k`. */
  lemma OtherMember(m: Mem, m': Mem, ix: Index, sizes: map<int, int>, xs: set<int>, k: Key, q: Key, i: int)
    requires SizesOk(m, sizes) && Rewritten(ix, sizes, xs, k) && WritesAround(m, m', ix.trie, xs, k)
    requires AroundOk(m, ix, k)
    requires q in ix.trie && q != k && NodeOk(m, ix, q) && 0 <= i < |ix.trie[q]|
    ensures var e := ix.trie[q][i];
      && SameRingWords(m, m', e) && SameAt(m, m', e + INDEX)
      && (i > 0 ==> SameTreeWords(m, m', e))
      && ((q.Kid? ==> q.up != k) ==> SameAt(m, m', e + PARENT))
      && (k != Kid(q, false) ==> SameAt(m, m', e + LEFT))
      && (k != Kid(q, true) ==> SameAt(m, m', e + RIGHT))
  {
    var e := ix.trie[q][i];
    hide NodeOk, Owns, TreeIndex, Exp, SizesOk, HeadLinks;
    MemberWords(m, ix, q, i);
    assert HEAP_START <= e by { OneIsHigh(m, sizes, e); }
    forall x | x in xs
      ensures Far(e, x)
    {
      LargeAreFar(m, sizes, e, x);
    }
    if k.Kid? {
      FarFromNode(m, ix, sizes, q, i, k.up);
    }
    if Kid(k, false) in ix.trie {
      FarFromNode(m, ix, sizes, q, i, Kid(k, false));
    }
    if Kid(k, true) in ix.trie {
      FarFromNode(m, ix, sizes, q, i, Kid(k, true));
    }
  }

  lemma OneIsHigh(m: Mem, sizes: map<int, int>, a: int)
    requires SizesOk(m, sizes) && a in sizes
    ensures HEAP_START <= a && a % 16 == 0
  {
    assert FreeWords(m, a, sizes[a]);
  }

  /** A member of `q` is the node at `p`, and then `q` is `p` and it is the first, or is far from that node. */
  lemma FarFromNode(m: Mem, ix: Index, sizes: map<int, int>, q: Key, i: int, p: Key)
    requires SizesOk(m, sizes) && forall a :: a in ix.sizes ==> a in sizes && sizes[a] == ix.sizes[a]
    requires q in ix.trie && NodeOk(m, ix, q) && 0 <= i < |ix.trie[q]|
    requires p in ix.trie && NodeOk(m, ix, p)
    ensures ix.trie[p] != [] && NodeAt(ix.trie, p) == ix.trie[p][0]
    ensures Far(ix.trie[q][i], ix.trie[p][0]) || (q == p && i == 0)
  {
    hide NodeOk, Owns, TreeIndex, Exp, SizesOk, HeadLinks;
    MemberWords(m, ix, q, i);
    NodeFacts(m, ix, p);
    if ix.trie[q][i] == ix.trie[p][0] {
      HeadIsFirst(m, ix, q, i);
    } else {
      LargeAreFar(m, sizes, ix.trie[q][i], ix.trie[p][0]);
    }
  }

  /** The index after a change at position `k`: everything at other positions is as before. */
  ghost predicate OnlyAt(ix: Index, ix': Index, k: Key) {
    && (forall q :: q != k ==> (q in ix'.trie <==> q in ix.trie))
    && (forall q :: q != k && q in ix.trie ==> ix'.trie[q] == ix.trie[q])
    && (forall e :: e in ix.loc && ix.loc[e] != k ==>
          && e in ix'.loc && ix'.loc[e] == ix.loc[e]
          && e in ix.sizes && e in ix'.sizes && ix'.sizes[e] == ix.sizes[e])
  }

  /** The pointers to position `k` hold the node it has now. */
  ghost predicate Repointed(m': Mem, ix: Index, ix': Index, k: Key) {
    && SlotOf(ix.trie, k) in m' && m'[SlotOf(ix.trie, k)] == NodeAt(ix'.trie, k)
    && (forall right :: Kid(k, right) in ix.trie ==>
          k in ix'.trie
          && NodeAt(ix.trie, Kid(k, right)) + PARENT in m'
          && m'[NodeAt(ix.trie, Kid(k, right)) + PARENT] == NodeAt(ix'.trie, k))
  }

  lemma OtherHead(m: Mem, m': Mem, ix: Index, ix': Index, sizes: map<int, int>, xs: set<int>, k: Key, q: Key)
    requires SizesOk(m, sizes) && Rewritten(ix, sizes, xs, k) && WritesAround(m, m', ix.trie, xs, k)
    requires AroundOk(m, ix, k) && OnlyAt(ix, ix', k) && Repointed(m', ix, ix', k)
    requires q in ix.trie && q != k && NodeOk(m, ix, q)
    ensures ix'.trie[q] == ix.trie[q] && ix'.trie[q] != []
    ensures HeadLinks(m', ix'.trie, q)
  {
    hide NodeOk, Owns, TreeIndex, Exp, SizesOk, Bin, WritesAround, Rewritten;
    NodeFacts(m, ix, q);
    NodeHasParent(m, ix, q);
    OtherMember(m, m', ix, sizes, xs, k, q, 0);
  }

  lemma OtherNode(m: Mem, m': Mem, ix: Index, ix': Index, sizes: map<int, int>, xs: set<int>, k: Key, q: Key)
    requires SizesOk(m, sizes) && Rewritten(ix, sizes, xs, k) && WritesAround(m, m', ix.trie, xs, k)
    requires AroundOk(m, ix, k) && OnlyAt(ix, ix', k) && Repointed(m', ix, ix', k)
    requires q in ix.trie && q != k && NodeOk(m, ix, q)
    ensures q in ix'.trie && NodeOk(m', ix', q)
  {
    forall i | 0 <= i < |ix.trie[q]|
      ensures MemberKept(m, m', ix, ix', q, i)
    {
      hide NodeOk, SizesOk, WritesAround, Rewritten, AroundOk, Repointed, Owns, TreeIndex, Exp;
      OtherMember(m, m', ix, sizes, xs, k, q, i);
      MemberWords(m, ix, q, i);
    }
    OtherHead(m, m', ix, ix', sizes, xs, k, q);
    hide NodeOk, SizesOk, WritesAround, Rewritten, AroundOk, Repointed, HeadLinks, MemberKept;
    NodeFrame(m, m', ix, ix', q);
  }

  lemma OtherBin(m: Mem, m': Mem, treemap: bv32, treemap': bv32, ix: Index, ix': Index, sizes: map<int, int>,
                 xs: set<int>, k: Key, b: int)
    requires SizesOk(m, sizes) && Rewritten(ix, sizes, xs, k) && WritesAround(m, m', ix.trie, xs, k)
    requires AroundOk(m, ix, k) && OnlyAt(ix, ix', k) && Repointed(m', ix, ix', k)
    requires 0 <= b < 32 && TreeBinOk(m, treemap, ix, b)
    requires Bit(treemap', b) <==> if k == Root(b) then k in ix'.trie else Bit(treemap, b)
    ensures TreeBinOk(m', treemap', ix', b)
  {
    hide Bit, SizesOk, NodeOk, Owns, TreeIndex, Exp, HeadLinks;
    var w := TreeBinAt(b);
    forall x | x in xs
      ensures w < x
    {
      OneIsHigh(m, sizes, x);
    }
    if k.Kid? {
      NodeFacts(m, ix, k.up);
      OneIsHigh(m, sizes, ix.trie[k.up][0]);
    }
    forall right | Kid(k, right) in ix.trie
      ensures w < NodeAt(ix.trie, Kid(k, right))
    {
      NodeFacts(m, ix, Kid(k, right));
      OneIsHigh(m, sizes, ix.trie[Kid(k, right)][0]);
    }
  }

  /** A change at one position, with its pointers set right, leaves the tries well formed. */
  lemma ChangeAt(m: Mem, m': Mem, treemap: bv32, treemap': bv32, ix: Index, ix': Index, sizes: map<int, int>,
                 xs: set<int>, k: Key)
    requires TrieOk(m, treemap, ix) && 0 <= Bin(k) < 32 && (k.Kid? ==> k.up in ix.trie)
    requires SizesOk(m, sizes) && Rewritten(ix, sizes, xs, k) && WritesAround(m, m', ix.trie, xs, k)
    requires OnlyAt(ix, ix', k) && Repointed(m', ix, ix', k)
    requires k in ix'.trie ==> NodeOk(m', ix', k)
    requires forall b :: 0 <= b < 32 ==> (Bit(treemap', b) <==> if k == Root(b) then k in ix'.trie else Bit(treemap, b))
    requires Located(ix')
    ensures TrieOk(m', treemap', ix')
  {
    assert AroundOk(m, ix, k);
    forall q | q in ix'.trie
      ensures NodeOk(m', ix', q)
    {
      hide SizesOk, Rewritten, WritesAround, Repointed, AroundOk, NodeOk, TreeBinOk, Bit, Located;
      if q != k {
        assert NodeOk(m, ix, q);
        OtherNode(m, m', ix, ix', sizes, xs, k, q);
      }
    }
    forall b | 0 <= b < 32
      ensures TreeBinOk(m', treemap', ix', b)
    {
      hide SizesOk, Rewritten, WritesAround, Repointed, AroundOk, NodeOk, OnlyAt, TreeBinOk, Bit, Located;
      assert TreeBinOk(m, treemap, ix, b);
      OtherBin(m, m', treemap, treemap', ix, ix', sizes, xs, k, b);
    }
    hide NodeOk, TreeBinOk, Located;
  }
}
