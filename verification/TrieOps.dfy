/** The four ways `insert_large_chunk` and `unlink_large_chunk` change the index. */
module TrieOps {
  import opened Words
  import opened Bits
  import opened Memory
  import opened SizeClasses
  import opened Rings
  import opened FreeIndex
  import opened Tries

  // ---------- from the tries to the whole index ----------

  lemma AroundIsTreeWords(m: Mem, m': Mem, ix: Index, sizes: map<int, int>, xs: set<int>, k: Key)
    requires SizesOk(m, sizes) && Rewritten(ix, sizes, xs, k) && WritesAround(m, m', ix.trie, xs, k)
    requires AroundOk(m, ix, k)
    ensures OnlyTreeWords(m, m', sizes)
  {
    hide NodeOk, Owns, TreeIndex, Exp, HeadLinks, SizesOk;
    if k.Kid? {
      NodeFacts(m, ix, k.up);
    }
    if Kid(k, false) in ix.trie {
      NodeFacts(m, ix, Kid(k, false));
    }
    if Kid(k, true) in ix.trie {
      NodeFacts(m, ix, Kid(k, true));
    }
  }

  ghost predicate SameSmall(ix: Index, ix': Index) {
    && ix'.small == ix.small
    && (forall a :: a in ix.sizes && IsSmall(ix.sizes[a]) ==> a in ix'.sizes && ix'.sizes[a] == ix.sizes[a])
    && (forall a :: a in ix'.sizes && IsSmall(ix'.sizes[a]) ==> a in ix.sizes && ix'.sizes[a] == ix.sizes[a])
  }

  /** `ChangeAt` for the whole index. */
  lemma ChangeIndexAt(m: Mem, m': Mem, smallmap: bv32, treemap: bv32, treemap': bv32, ix: Index, ix': Index,
                      sizes: map<int, int>, xs: set<int>, k: Key)
    requires SmallOk(m, smallmap, ix)
    requires TrieOk(m, treemap, ix) && 0 <= Bin(k) < 32 && (k.Kid? ==> k.up in ix.trie)
    requires SizesOk(m, sizes) && Rewritten(ix, sizes, xs, k) && WritesAround(m, m', ix.trie, xs, k)
    requires OnlyAt(ix, ix', k) && Repointed(m', ix, ix', k)
    requires k in ix'.trie ==> NodeOk(m', ix', k)
    requires forall b :: 0 <= b < 32 ==> (Bit(treemap', b) <==> if k == Root(b) then k in ix'.trie else Bit(treemap, b))
    requires Located(ix')
    requires SameSmall(ix, ix') && forall a :: a in ix'.sizes ==> a in sizes && sizes[a] == ix'.sizes[a]
    ensures IndexOk(m', smallmap, treemap', ix')
    ensures OnlyTreeWords(m, m', sizes) && SizesOk(m', sizes)
  {
    assert AroundOk(m, ix, k) by { hide SizesOk, WritesAround, Rewritten, Repointed, OnlyAt, TreeBinOk; }
    assert TrieOk(m', treemap', ix') by {
      hide *;
      ChangeAt(m, m', treemap, treemap', ix, ix', sizes, xs, k);
    }
    hide TrieOk, AroundOk, NodeOk, Bit, Located, OnlyAt, Repointed, WritesAround, SizesOk, SmallOk, OnlyTreeWords;
    AroundIsTreeWords(m, m', ix, sizes, xs, k);
    TreeWordsKeepSizes(m, m', sizes);
    FewerSizes(m', sizes, ix'.sizes);
    assert SmallOk(m', smallmap, ix') by { TreeWordsKeepSmall(m, m', smallmap, ix, ix', sizes); }
  }

  // ---------- a new node ----------

  function AddNode(ix: Index, k: Key, c: int, size: int): Index {
    ix.(sizes := ix.sizes[c := size], trie := ix.trie[k := [c]], loc := ix.loc[c := k])
  }

  /** `c` has been written as a lone node at `k`, and its slot points to it. */
  ghost predicate NodeWritten(m: Mem, m': Mem, trie: map<Key, seq<int>>, k: Key, c: int) {
    && m'.Keys == m.Keys
    && c + INDEX in m && m'[c + INDEX] == Bin(k)
    && c + LEFT in m && m'[c + LEFT] == 0 && c + RIGHT in m && m'[c + RIGHT] == 0
    && c + NEXT in m && m'[c + NEXT] == c && c + PREV in m && m'[c + PREV] == c
    && c + PARENT in m && m'[c + PARENT] == ParentOf(trie, k)
    && SlotOf(trie, k) in m && m'[SlotOf(trie, k)] == c
    && forall w :: w in m && !(c + PREV <= w <= c + INDEX) && w != SlotOf(trie, k) ==> m'[w] == m[w]
  }

  /** No chunk in a trie has this size yet. */
  ghost predicate NewSize(ix: Index, size: int) { forall c :: c in ix.loc && c in ix.sizes ==> ix.sizes[c] != size }

  ghost predicate FreePosition(ix: Index, k: Key, size: int) {
    && k !in ix.trie && Kid(k, false) !in ix.trie && Kid(k, true) !in ix.trie
    && (k.Kid? ==> k.up in ix.trie)
    && 0 <= size && Owns(k, size) && TreeIndex(size) == Bin(k) && Exp(k) >= 0 && 0 <= Bin(k) < 32
    && NewSize(ix, size)
  }

  lemma NewNode(m: Mem, m': Mem, ix: Index, k: Key, c: int, size: int)
    requires CanAdd(m, ix, c, size) && !IsSmall(size) && MIN_LARGE_SIZE <= size && FreePosition(ix, k, size)
    requires NodeWritten(m, m', ix.trie, k, c)
    ensures NodeOk(m', AddNode(ix, k, c, size), k)
  {
    var ix' := AddNode(ix, k, c, size);
    OneIsHigh(m, ix.sizes[c := size], c);
    hide Owns, TreeIndex, Bin, Exp, SizesOk;
    assert LinkAt(m', ix'.trie[k], 0);
    assert k.Kid? ==> NodeAt(ix'.trie, k.up) == NodeAt(ix.trie, k.up);
    assert MemberOk(m', ix', k, 0);
  }

  /** No node hangs below a position without one. */
  lemma KidsOfMissing(m: Mem, treemap: bv32, ix: Index, k: Key, right: bool)
    requires TrieOk(m, treemap, ix) && k !in ix.trie
    ensures Kid(k, right) !in ix.trie
  {
    if Kid(k, right) in ix.trie {
      assert NodeOk(m, ix, Kid(k, right));
      hide TrieOk, NodeOk;
      NodeHasParent(m, ix, Kid(k, right));
    }
  }

  lemma InsertNode(m: Mem, m': Mem, smallmap: bv32, treemap: bv32, treemap': bv32, ix: Index, k: Key, c: int, size: int)
    requires IndexOk(m, smallmap, treemap, ix) && CanAdd(m, ix, c, size) && !IsSmall(size) && FreePosition(ix, k, size)
    requires NodeWritten(m, m', ix.trie, k, c)
    requires forall b :: 0 <= b < 32 ==> (Bit(treemap', b) <==> k == Root(b) || Bit(treemap, b))
    ensures IndexOk(m', smallmap, treemap', AddNode(ix, k, c, size))
    ensures OnlyTreeWords(m, m', ix.sizes[c := size])
  {
    hide SizesOk, SmallOk, TrieOk, NodeOk, Bit, Owns, TreeIndex, Exp, Bin;
    var ix' := AddNode(ix, k, c, size);
    assert MIN_LARGE_SIZE <= size by { NewIsLarge(m, ix, c, size); }
    assert NodeOk(m', ix', k) by { NewNode(m, m', ix, k, c, size); }
    LocatedOf(m, treemap, ix);
    assert Rewritten(ix, ix'.sizes, {c}, k);
    assert Located(ix');
    assert WritesAround(m, m', ix.trie, {c}, k) by { hide Located; assert c in {c}; }
    assert Repointed(m', ix, ix', k) && OnlyAt(ix, ix', k) && SameSmall(ix, ix') by {
      hide NodeWritten;
      Slotted(m, m', ix.trie, k, c);
    }
    hide Located, Repointed, OnlyAt, SameSmall, WritesAround, Rewritten, NodeWritten;
    ChangeIndexAt(m, m', smallmap, treemap, treemap', ix, ix', ix'.sizes, {c}, k);
  }

  lemma Slotted(m: Mem, m': Mem, trie: map<Key, seq<int>>, k: Key, c: int)
    requires NodeWritten(m, m', trie, k, c)
    ensures SlotOf(trie, k) in m' && m'[SlotOf(trie, k)] == c
  {
  }

  lemma NewIsLarge(m: Mem, ix: Index, c: int, size: int)
    requires CanAdd(m, ix, c, size) && !IsSmall(size)
    ensures MIN_LARGE_SIZE <= size && size < WORD_LIMIT && FreeWords(m, c, size)
  {
    assert c in ix.sizes[c := size];
  }

  lemma TrieNode(m: Mem, treemap: bv32, ix: Index, k: Key)
    requires TrieOk(m, treemap, ix) && k in ix.trie
    ensures NodeOk(m, ix, k)
  {
  }

  lemma TrieBits(m: Mem, treemap: bv32, ix: Index)
    requires TrieOk(m, treemap, ix)
    ensures forall b :: 0 <= b < 32 ==> TreeBinOk(m, treemap, ix, b)
    ensures forall b :: 0 <= b < 32 ==> (Bit(treemap, b) <==> Root(b) in ix.trie)
  {
    hide NodeOk, Bit;
    forall b | 0 <= b < 32
      ensures Bit(treemap, b) <==> Root(b) in ix.trie
    {
      assert TreeBinOk(m, treemap, ix, b);
    }
  }

  // ---------- a new member of a node's ring ----------

  function AddMember(ix: Index, k: Key, c: int, size: int): Index
    requires k in ix.trie
  {
    ix.(sizes := ix.sizes[c := size], trie := ix.trie[k := ix.trie[k] + [c]], loc := ix.loc[c := k])
  }

  ghost predicate MemberWritten(m: Mem, m': Mem, r: seq<int>, bin: int, c: int)
    requires r != []
  {
    var h, f := r[0], r[|r| - 1];
    && m'.Keys == m.Keys
    && c + INDEX in m && m'[c + INDEX] == bin
    && c + LEFT in m && m'[c + LEFT] == 0 && c + RIGHT in m && m'[c + RIGHT] == 0
    && c + PARENT in m && m'[c + PARENT] == 0
    && c + NEXT in m && m'[c + NEXT] == h && c + PREV in m && m'[c + PREV] == f
    && h + PREV in m && m'[h + PREV] == c && f + NEXT in m && m'[f + NEXT] == c
    && forall w :: w in m && !(c + PREV <= w <= c + INDEX) && w != h + PREV && w != f + NEXT ==> m'[w] == m[w]
  }

  lemma RingMemberApart(m: Mem, ix: Index, sizes: map<int, int>, k: Key, i: int, j: int)
    requires SizesOk(m, sizes) && forall a :: a in ix.sizes ==> a in sizes && sizes[a] == ix.sizes[a]
    requires k in ix.trie && NodeOk(m, ix, k) && 0 <= i < |ix.trie[k]| && 0 <= j < |ix.trie[k]|
    ensures i != j ==> Far(ix.trie[k][i], ix.trie[k][j])
  {
    assert Distinct(ix.trie[k]);
    hide NodeOk, SizesOk;
    MemberWords(m, ix, k, i);
    MemberWords(m, ix, k, j);
    DifferentAt(ix.trie[k], i, j);
    if i != j {
      LargeAreFar(m, sizes, ix.trie[k][i], ix.trie[k][j]);
    }
  }

  lemma NewMember(m: Mem, m': Mem, ix: Index, k: Key, c: int, size: int)
    requires CanAdd(m, ix, c, size) && !IsSmall(size) && k in ix.trie && NodeOk(m, ix, k)
    requires ix.trie[k] != [] && ix.trie[k][0] in ix.sizes && size == ix.sizes[ix.trie[k][0]]
    requires MemberWritten(m, m', ix.trie[k], Bin(k), c)
    ensures NodeOk(m', AddMember(ix, k, c, size), k)
  {
    hide NodeOk, SizesOk, Owns, TreeIndex, Bin, Exp, Ring, Distinct, HeadLinks;
    var ix' := AddMember(ix, k, c, size);
    var r := ix.trie[k];
    NodeFacts(m, ix, k);
    NodeRing(m, ix, k);
    OneIsHigh(m, ix'.sizes, c);
    forall i | 0 <= i < |r|
      ensures OldRingMember(m, m', r, c, i)
    {
      OldMember(m, m', ix, k, c, size, i);
    }
    forall i | 0 <= i < |r|
      ensures r[i] != c
      ensures i > 0 ==> SameAt(m, m', r[i] + PREV)
      ensures i < |r| - 1 ==> SameAt(m, m', r[i] + NEXT)
    {
      assert OldRingMember(m, m', r, c, i);
    }
    AppendMember(m, m', r, c);
    forall i | 0 <= i < |r| + 1
      ensures MemberOk(m', ix', k, i)
    {
      if i < |r| {
        assert OldRingMember(m, m', r, c, i);
        NodeMember(m, ix, k, i);
        assert ix'.trie[k][i] == r[i];
      }
    }
    assert HeadLinks(m', ix'.trie, k) by {
      assert OldRingMember(m, m', r, c, 0);
      RelinkedHead(m, m', ix.trie, ix'.trie, k);
    }
    hide MemberOk, OldRingMember, MemberWritten;
    NodeOf(m', ix', k);
  }

  lemma NodeRing(m: Mem, ix: Index, k: Key)
    requires k in ix.trie && NodeOk(m, ix, k)
    ensures Ring(m, ix.trie[k]) && Distinct(ix.trie[k])
  {
  }

  ghost predicate OldRingMember(m: Mem, m': Mem, r: seq<int>, c: int, i: int)
    requires 0 <= i < |r|
  {
    && r[i] != c && r[i] % 16 == 0
    && (i > 0 ==> SameAt(m, m', r[i] + PREV))
    && (i < |r| - 1 ==> SameAt(m, m', r[i] + NEXT))
    && SameTreeWords(m, m', r[i])
  }

  lemma OldMember(m: Mem, m': Mem, ix: Index, k: Key, c: int, size: int, i: int)
    requires CanAdd(m, ix, c, size) && !IsSmall(size) && k in ix.trie && NodeOk(m, ix, k)
    requires 0 <= i < |ix.trie[k]|
    requires MemberWritten(m, m', ix.trie[k], Bin(k), c)
    ensures OldRingMember(m, m', ix.trie[k], c, i)
  {
    hide NodeOk, SizesOk, Bin;
    var sizes', r := ix.sizes[c := size], ix.trie[k];
    MemberWords(m, ix, k, i);
    LargeAreFar(m, sizes', r[i], c);
    RingMemberApart(m, ix, sizes', k, i, 0);
    RingMemberApart(m, ix, sizes', k, i, |r| - 1);
  }

  lemma NodeMember(m: Mem, ix: Index, k: Key, i: int)
    requires k in ix.trie && NodeOk(m, ix, k) && 0 <= i < |ix.trie[k]|
    ensures MemberOk(m, ix, k, i)
  {
  }

  lemma NodeOf(m: Mem, ix: Index, k: Key)
    requires k in ix.trie && 0 <= Bin(k) < 32 && Exp(k) >= 0
    requires Ring(m, ix.trie[k]) && Distinct(ix.trie[k])
    requires forall i :: 0 <= i < |ix.trie[k]| ==> MemberOk(m, ix, k, i)
    requires HeadLinks(m, ix.trie, k)
    ensures NodeOk(m, ix, k)
  {
  }

  lemma AppendMember(m: Mem, m': Mem, r: seq<int>, c: int)
    requires Ring(m, r) && Distinct(r) && c !in r && c % 16 == 0
    requires MemberLinked(m', r, c)
    requires forall i :: 0 < i < |r| ==> SameAt(m, m', r[i] + PREV)
    requires forall i :: 0 <= i < |r| - 1 ==> SameAt(m, m', r[i] + NEXT)
    ensures Ring(m', r + [c]) && Distinct(r + [c])
  {
    RingAppend(m, m', r, c);
  }

  ghost predicate MemberLinked(m': Mem, r: seq<int>, c: int) {
    && r != []
    && r[0] + PREV in m' && m'[r[0] + PREV] == c && c + NEXT in m' && m'[c + NEXT] == r[0]
    && r[|r| - 1] + NEXT in m' && m'[r[|r| - 1] + NEXT] == c && c + PREV in m' && m'[c + PREV] == r[|r| - 1]
  }

  /** The node at `k` keeps its tree links when it keeps its words and every position keeps its node. */
  lemma RelinkedHead(m: Mem, m': Mem, trie: map<Key, seq<int>>, trie': map<Key, seq<int>>, k: Key)
    requires k in trie && trie[k] != [] && HeadLinks(m, trie, k)
    requires trie'.Keys == trie.Keys && forall q :: q in trie ==> NodeAt(trie', q) == NodeAt(trie, q)
    requires trie'[k] != [] && trie'[k][0] == trie[k][0]
    requires SameTreeWords(m, m', trie[k][0])
    ensures HeadLinks(m', trie', k)
  {
  }

  lemma InsertMember(m: Mem, m': Mem, smallmap: bv32, treemap: bv32, ix: Index, k: Key, c: int, size: int)
    requires IndexOk(m, smallmap, treemap, ix) && CanAdd(m, ix, c, size) && !IsSmall(size)
    requires k in ix.trie && NodeOk(m, ix, k)
    requires ix.trie[k] != [] && ix.trie[k][0] in ix.sizes && size == ix.sizes[ix.trie[k][0]]
    requires MemberWritten(m, m', ix.trie[k], Bin(k), c)
    ensures IndexOk(m', smallmap, treemap, AddMember(ix, k, c, size))
    ensures OnlyTreeWords(m, m', ix.sizes[c := size])
  {
    hide SizesOk, SmallOk, TrieOk, NodeOk, Bit, Owns, TreeIndex, Exp, HeadLinks, Bin;
    var ix' := AddMember(ix, k, c, size);
    var r := ix.trie[k];
    var xs := {c, r[0], r[|r| - 1]};
    assert NodeOk(m', ix', k) by { NewMember(m, m', ix, k, c, size); }
    LocatedOf(m, treemap, ix);
    TrieBits(m, treemap, ix);
    NodeHasParent(m, ix, k);
    NodeFacts(m, ix, k);
    MemberWords(m, ix, k, |r| - 1);
    assert Located(ix') by {
      assert forall e :: e in r ==> e in r + [c];
      assert (r + [c])[|r|] == c;
    }
    assert Rewritten(ix, ix'.sizes, xs, k);
    hide Located, TreeBinOk;
    assert forall w :: w in m && m'[w] != m[w] ==> NearAny(xs, w) by {
      assert c in xs && r[0] in xs && r[|r| - 1] in xs;
    }
    assert WritesAround(m, m', ix.trie, xs, k);
    hide NearAny;
    assert OnlyAt(ix, ix', k) && SameSmall(ix, ix');
    assert Repointed(m', ix, ix', k) by {
      hide Rewritten, WritesAround;
      RingOnly(m, m', treemap, ix, ix', ix'.sizes, xs, k);
    }
    hide Repointed, OnlyAt, SameSmall, WritesAround, Rewritten, MemberWritten;
    ChangeIndexAt(m, m', smallmap, treemap, treemap, ix, ix', ix'.sizes, xs, k);
  }

  /** The slot of a position with a node points to that node. */
  lemma SlotHolds(m: Mem, treemap: bv32, ix: Index, k: Key)
    requires TrieOk(m, treemap, ix) && k in ix.trie
    ensures SlotOf(ix.trie, k) in m && m[SlotOf(ix.trie, k)] == NodeAt(ix.trie, k)
  {
    hide TrieOk, NodeOk, Bit, Owns, TreeIndex, Exp;
    TrieNode(m, treemap, ix, k);
    NodeHasParent(m, ix, k);
    NodeFacts(m, ix, k);
    if k.Kid? {
      TrieNode(m, treemap, ix, k.up);
      NodeFacts(m, ix, k.up);
    } else {
      TrieBits(m, treemap, ix);
      assert TreeBinOk(m, treemap, ix, k.bin);
    }
  }

  lemma KidsPointUp(m: Mem, treemap: bv32, ix: Index, k: Key)
    requires TrieOk(m, treemap, ix) && k in ix.trie
    ensures forall right :: Kid(k, right) in ix.trie ==>
      && NodeAt(ix.trie, Kid(k, right)) + PARENT in m
      && m[NodeAt(ix.trie, Kid(k, right)) + PARENT] == NodeAt(ix.trie, k)
  {
    hide TrieOk, NodeOk, Owns, TreeIndex, Exp, Bin;
    forall right | Kid(k, right) in ix.trie
      ensures NodeAt(ix.trie, Kid(k, right)) + PARENT in m
      ensures m[NodeAt(ix.trie, Kid(k, right)) + PARENT] == NodeAt(ix.trie, k)
    {
      TrieNode(m, treemap, ix, Kid(k, right));
      NodeFacts(m, ix, Kid(k, right));
    }
  }

  /** Writes to the ring at `k` alone leave the pointers to it right. */
  lemma RingOnly(m: Mem, m': Mem, treemap: bv32, ix: Index, ix': Index, sizes: map<int, int>, xs: set<int>, k: Key)
    requires TrieOk(m, treemap, ix) && k in ix.trie && 0 <= Bin(k) < 32
    requires SizesOk(m, sizes) && Rewritten(ix, sizes, xs, k)
    requires m'.Keys == m.Keys && forall w :: w in m && m'[w] != m[w] ==> NearAny(xs, w)
    requires k in ix'.trie && NodeAt(ix'.trie, k) == NodeAt(ix.trie, k)
    ensures Repointed(m', ix, ix', k)
  {
    SlotHolds(m, treemap, ix, k);
    KidsPointUp(m, treemap, ix, k);
    if k.Kid? {
      assert k.up in ix.trie by {
        hide SizesOk, Rewritten, TreeBinOk;
        assert NodeOk(m, ix, k);
        NodeHasParent(m, ix, k);
      }
      NodeAwayFrom(m, treemap, ix, sizes, xs, k, k.up);
    } else {
      forall x | x in xs
        ensures TreeBinAt(k.bin) < x
      {
        OneIsHigh(m, sizes, x);
      }
    }
    forall right | Kid(k, right) in ix.trie
      ensures m'[NodeAt(ix.trie, Kid(k, right)) + PARENT] == m[NodeAt(ix.trie, Kid(k, right)) + PARENT]
    {
      NodeAwayFrom(m, treemap, ix, sizes, xs, k, Kid(k, right));
    }
    hide TrieOk, SizesOk, Rewritten;
  }

  lemma NodeAwayFrom(m: Mem, treemap: bv32, ix: Index, sizes: map<int, int>, xs: set<int>, k: Key, q: Key)
    requires TrieOk(m, treemap, ix) && q in ix.trie && q != k
    requires SizesOk(m, sizes) && Rewritten(ix, sizes, xs, k)
    ensures forall x :: x in xs ==> Far(NodeAt(ix.trie, q), x)
  {
    assert NodeOk(m, ix, q);
    hide TrieOk, NodeOk, SizesOk;
    NodeFacts(m, ix, q);
    forall x | x in xs
      ensures Far(NodeAt(ix.trie, q), x)
    {
      LargeAreFar(m, sizes, NodeAt(ix.trie, q), x);
    }
  }
}
