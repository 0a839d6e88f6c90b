/** What the code may read off a well-formed index, and the writes to a chunk that is not in it yet. */
module IndexReads {
  import opened Words
  import opened Bits
  import opened Memory
  import opened SizeClasses
  import opened Rings
  import opened FreeIndex
  import opened SmallBins
  import opened Tries
  import opened TrieOps

  /** Operations on the index write bin headers and the link words of chunks in bins, nothing else. */
  ghost predicate OnlyLinks(m: Mem, m': Mem, sizes: map<int, int>) {
    && m'.Keys == m.Keys
    && forall w :: w in m && m'[w] != m[w] ==> w < SEG || IsLink(sizes, w)
  }

  ghost predicate IsLink(sizes: map<int, int>, w: int) {
    exists a :: a in sizes && a + PREV <= w < a + LinkEnd(sizes[a])
  }

  function LinkEnd(size: int): int { if IsSmall(size) then LEFT else INDEX + 8 }

  lemma TreeWordsAreLinks(m: Mem, m': Mem, sizes: map<int, int>)
    requires OnlyTreeWords(m, m', sizes)
    ensures OnlyLinks(m, m', sizes)
  {
  }

  lemma LinksCompose(m: Mem, m1: Mem, m2: Mem, sizes: map<int, int>)
    requires OnlyLinks(m, m1, sizes) && OnlyLinks(m1, m2, sizes)
    ensures OnlyLinks(m, m2, sizes)
  {
  }

  /** What the words of the node at `k` say. */
  ghost predicate NodeReads(m: Mem, ix: Index, k: Key) {
    && k in ix.trie && ix.trie[k] != []
    && var r := ix.trie[k]; var u := r[0];
    && u != 0 && NodeAt(ix.trie, k) == u
    && u in ix.loc && ix.loc[u] == k && u in ix.sizes && MIN_LARGE_SIZE <= ix.sizes[u] < WORD_LIMIT
    && u + HEAD in m && Size(m[u + HEAD]) == ix.sizes[u]
    && u + LEFT in m && m[u + LEFT] == NodeAt(ix.trie, Kid(k, false))
    && u + RIGHT in m && m[u + RIGHT] == NodeAt(ix.trie, Kid(k, true))
    && u + PARENT in m && m[u + PARENT] == ParentOf(ix.trie, k)
    && u + PREV in m && m[u + PREV] == r[|r| - 1]
    && u + NEXT in m && m[u + NEXT] == r[Succ(|r|, 0)]
    && 0 <= Bin(k) < 32 && Exp(k) >= 0 && Owns(k, ix.sizes[u]) && TreeIndex(ix.sizes[u]) == Bin(k)
    && (k.Kid? ==> k.up in ix.trie)
  }

  lemma ReadNode(m: Mem, smallmap: bv32, treemap: bv32, ix: Index, k: Key)
    requires IndexOk(m, smallmap, treemap, ix) && k in ix.trie
    ensures NodeReads(m, ix, k)
  {
    hide SizesOk, SmallOk, TrieOk, NodeOk, Owns, TreeIndex, Exp, Bin, HeadLinks;
    TrieNode(m, treemap, ix, k);
    NodeFacts(m, ix, k);
    NodeRing(m, ix, k);
    NodeHasParent(m, ix, k);
    RingNeighbours(m, ix.trie[k], 0);
    ReadChunk(m, ix.sizes, ix.trie[k][0]);
    assert HeadLinks(m, ix.trie, k);
    LinksOf(m, ix.trie, k);
  }

  lemma LinksOf(m: Mem, trie: map<Key, seq<int>>, k: Key)
    requires k in trie && trie[k] != [] && HeadLinks(m, trie, k)
    ensures var u := trie[k][0];
      && u + LEFT in m && m[u + LEFT] == NodeAt(trie, Kid(k, false))
      && u + RIGHT in m && m[u + RIGHT] == NodeAt(trie, Kid(k, true))
      && u + PARENT in m && m[u + PARENT] == ParentOf(trie, k)
  {
  }

  lemma ReadChunk(m: Mem, sizes: map<int, int>, a: int)
    requires SizesOk(m, sizes) && a in sizes
    ensures FreeWords(m, a, sizes[a]) && a != 0 && Size(m[a + HEAD]) == sizes[a]
  {
    assert FreeWords(m, a, sizes[a]);
    HeadRoundTrip(sizes[a], true, false);
  }

  /** A bin without a node holds null and is not marked; otherwise it holds its root. */
  lemma ReadTreeBin(m: Mem, smallmap: bv32, treemap: bv32, ix: Index, b: int)
    requires IndexOk(m, smallmap, treemap, ix) && 0 <= b < 32
    ensures TreeBinAt(b) in m && m[TreeBinAt(b)] == NodeAt(ix.trie, Root(b))
    ensures Bit(treemap, b) <==> Root(b) in ix.trie
    ensures Root(b) in ix.trie <==> m[TreeBinAt(b)] != 0
  {
    hide SizesOk, SmallOk, TrieOk, Bit;
    TrieBits(m, treemap, ix);
    assert TreeBinOk(m, treemap, ix, b);
    if Root(b) in ix.trie {
      ReadNode(m, smallmap, treemap, ix, Root(b));
    }
  }

  /** A null child is a missing position. */
  lemma ReadKid(m: Mem, smallmap: bv32, treemap: bv32, ix: Index, k: Key, right: bool)
    requires IndexOk(m, smallmap, treemap, ix) && k in ix.trie
    ensures NodeAt(ix.trie, Kid(k, right)) != 0 <==> Kid(k, right) in ix.trie
  {
    hide IndexOk;
    if Kid(k, right) in ix.trie {
      ReadNode(m, smallmap, treemap, ix, Kid(k, right));
    }
  }

  // ---------- writing to a chunk that is about to be added ----------

  lemma ScratchWrite(m: Mem, smallmap: bv32, treemap: bv32, ix: Index, c: int, size: int, w: int, v: int)
    requires IndexOk(m, smallmap, treemap, ix) && CanAdd(m, ix, c, size) && !IsSmall(size)
    requires c + PREV <= w <= c + INDEX && w in m
    ensures IndexOk(m[w := v], smallmap, treemap, ix) && CanAdd(m[w := v], ix, c, size)
  {
    hide SizesOk, SmallOk, TrieOk;
    var m', sizes' := m[w := v], ix.sizes[c := size];
    WriteTreeWord(m, m, sizes', c, w, v);
    TreeWordsKeepSizes(m, m', sizes');
    FewerSizes(m', sizes', ix.sizes);
    TreeWordsKeepSmall(m, m', smallmap, ix, ix, sizes');
    ScratchMissesTries(m, m', treemap, ix, c, size, w);
  }

  lemma ScratchMissesTries(m: Mem, m': Mem, treemap: bv32, ix: Index, c: int, size: int, w: int)
    requires TrieOk(m, treemap, ix) && CanAdd(m, ix, c, size) && !IsSmall(size)
    requires c + PREV <= w <= c + INDEX && w in m && m'.Keys == m.Keys
    requires forall x :: x in m && x != w ==> m'[x] == m[x]
    ensures TrieOk(m', treemap, ix)
  {
    hide SizesOk, TrieOk, NodeOk;
    LocatedOf(m, treemap, ix);
    forall a | a in ix.loc
      ensures SameChunk(m, m', ix, ix, a)
    {
      var k := ix.loc[a];
      TrieNode(m, treemap, ix, k);
      var i :| 0 <= i < |ix.trie[k]| && ix.trie[k][i] == a;
      MemberWords(m, ix, k, i);
      LargeAreFar(m, ix.sizes[c := size], a, c);
    }
    TrieBits(m, treemap, ix);
    OneIsHigh(m, ix.sizes[c := size], c);
    forall b | 0 <= b < 32
      ensures SameAt(m, m', TreeBinAt(b))
    {
      assert TreeBinOk(m, treemap, ix, b);
    }
    hide SameChunk, SameAt, TreeBinOk;
    TrieFrame(m, m', treemap, ix, ix);
  }

  /** `insert_large_chunk` starts by recording the bin and clearing the children. */
  ghost predicate Scratched(m: Mem, c: int, bin: int) {
    && c + INDEX in m && m[c + INDEX] == bin
    && c + LEFT in m && m[c + LEFT] == 0
    && c + RIGHT in m && m[c + RIGHT] == 0
  }

  lemma Scratch(m: Mem, smallmap: bv32, treemap: bv32, ix: Index, c: int, size: int, bin: int)
    requires IndexOk(m, smallmap, treemap, ix) && CanAdd(m, ix, c, size) && !IsSmall(size)
    ensures c + INDEX in m && c + LEFT in m && c + RIGHT in m
    ensures var m' := m[c + INDEX := bin][c + LEFT := 0][c + RIGHT := 0];
      && IndexOk(m', smallmap, treemap, ix) && CanAdd(m', ix, c, size)
      && Scratched(m', c, bin) && OnlyLinks(m, m', ix.sizes[c := size])
  {
    hide IndexOk, CanAdd, OnlyTreeWords, OnlyLinks;
    NewIsLarge(m, ix, c, size);
    var sizes' := ix.sizes[c := size];
    assert OnlyTreeWords(m, m, sizes') by { NoWrites(m, sizes'); }
    var m1 := m[c + INDEX := bin];
    ScratchWrite(m, smallmap, treemap, ix, c, size, c + INDEX, bin);
    WriteTreeWord(m, m, sizes', c, c + INDEX, bin);
    var m2 := m1[c + LEFT := 0];
    ScratchWrite(m1, smallmap, treemap, ix, c, size, c + LEFT, 0);
    WriteTreeWord(m, m1, sizes', c, c + LEFT, 0);
    ScratchWrite(m2, smallmap, treemap, ix, c, size, c + RIGHT, 0);
    WriteTreeWord(m, m2, sizes', c, c + RIGHT, 0);
    TreeWordsAreLinks(m, m2[c + RIGHT := 0], sizes');
  }

  lemma NoWrites(m: Mem, sizes: map<int, int>)
    ensures OnlyTreeWords(m, m, sizes) && OnlyLinks(m, m, sizes)
  {
  }

  /** Hanging the new chunk into its slot completes it as a node. */
  lemma FinishNode(m: Mem, smallmap: bv32, treemap: bv32, treemap': bv32, ix: Index, k: Key, c: int, size: int)
    requires IndexOk(m, smallmap, treemap, ix) && CanAdd(m, ix, c, size) && !IsSmall(size)
    requires Scratched(m, c, Bin(k)) && k !in ix.trie && (k.Kid? ==> k.up in ix.trie)
    requires 0 <= size && Owns(k, size) && TreeIndex(size) == Bin(k) && Exp(k) >= 0 && NewSize(ix, size)
    requires forall b :: 0 <= b < 32 ==> (Bit(treemap', b) <==> k == Root(b) || Bit(treemap, b))
    ensures SlotOf(ix.trie, k) in m && c + PARENT in m && c + NEXT in m && c + PREV in m
    ensures var m' := m[SlotOf(ix.trie, k) := c][c + PARENT := ParentOf(ix.trie, k)][c + NEXT := c][c + PREV := c];
      && IndexOk(m', smallmap, treemap', AddNode(ix, k, c, size))
      && OnlyLinks(m, m', ix.sizes[c := size])
  {
    hide IndexOk, CanAdd, OnlyTreeWords, OnlyLinks, Owns, TreeIndex, Bit, Exp, Lo, Hi, TrieOk, NewSize;
    NewIsLarge(m, ix, c, size);
    assert TrieOk(m, treemap, ix) by { TrieOf(m, smallmap, treemap, ix); }
    KidsOfMissing(m, treemap, ix, k, false);
    KidsOfMissing(m, treemap, ix, k, true);
    TreeIndexInterval(size);
    var m' := m[SlotOf(ix.trie, k) := c][c + PARENT := ParentOf(ix.trie, k)][c + NEXT := c][c + PREV := c];
    if k.Kid? {
      ReadNode(m, smallmap, treemap, ix, k.up);
      NewIsElsewhere(m, ix, c, size, ix.trie[k.up][0]);
    } else {
      ReadTreeBin(m, smallmap, treemap, ix, k.bin);
    }
    assert NodeWritten(m, m', ix.trie, k, c);
    hide NodeWritten;
    InsertNode(m, m', smallmap, treemap, treemap', ix, k, c, size);
    TreeWordsAreLinks(m, m', ix.sizes[c := size]);
  }

  lemma TrieOf(m: Mem, smallmap: bv32, treemap: bv32, ix: Index)
    requires IndexOk(m, smallmap, treemap, ix)
    ensures TrieOk(m, treemap, ix) && SizesOk(m, ix.sizes) && SmallOk(m, smallmap, ix)
  {
  }

  lemma NewIsElsewhere(m: Mem, ix: Index, c: int, size: int, a: int)
    requires CanAdd(m, ix, c, size) && !IsSmall(size) && a in ix.sizes && !IsSmall(ix.sizes[a])
    ensures Far(a, c)
  {
    LargeAreFar(m, ix.sizes[c := size], a, c);
  }

  /** Linking the new chunk in before a node of its size completes it as a ring member. */
  lemma FinishMember(m: Mem, smallmap: bv32, treemap: bv32, ix: Index, k: Key, c: int, size: int)
    requires IndexOk(m, smallmap, treemap, ix) && CanAdd(m, ix, c, size) && !IsSmall(size)
    requires Scratched(m, c, Bin(k)) && k in ix.trie && NodeReads(m, ix, k) && ix.sizes[ix.trie[k][0]] == size
    ensures LinkedLast(m, ix.trie[k][0], c).Keys == m.Keys
    ensures IndexOk(LinkedLast(m, ix.trie[k][0], c), smallmap, treemap, AddMember(ix, k, c, size))
    ensures OnlyLinks(m, LinkedLast(m, ix.trie[k][0], c), ix.sizes[c := size])
  {
    hide IndexOk, CanAdd, OnlyTreeWords, OnlyLinks, Owns, TreeIndex, Exp, Lo, Hi, TrieOk, NodeOk, Bin, MemberWritten;
    var m' := LinkedLast(m, ix.trie[k][0], c);
    NewIsLarge(m, ix, c, size);
    TrieOf(m, smallmap, treemap, ix);
    TrieNode(m, treemap, ix, k);
    LinkedLastWrites(m, treemap, ix, k, c, size);
    hide LinkedLast, NodeReads, Scratched;
    InsertMember(m, m', smallmap, treemap, ix, k, c, size);
    TreeWordsAreLinks(m, m', ix.sizes[c := size]);
  }

  lemma LinkedLastDomain(m: Mem, treemap: bv32, smallmap: bv32, ix: Index, k: Key, c: int, size: int)
    requires IndexOk(m, smallmap, treemap, ix) && CanAdd(m, ix, c, size) && !IsSmall(size)
    requires Scratched(m, c, Bin(k)) && k in ix.trie && NodeReads(m, ix, k)
    ensures m[ix.trie[k][0] + PREV] + NEXT in m && c + PREV in m && c + NEXT in m && c + PARENT in m
  {
    hide IndexOk, CanAdd, Owns, TreeIndex, Exp, TrieOk, NodeOk, Bin, MemberWritten, LinkedLast;
    NewIsLarge(m, ix, c, size);
    TrieOf(m, smallmap, treemap, ix);
    LinkedLastWrites(m, treemap, ix, k, c, size);
  }

  /** The writes that put `c` in the ring before the node `t`. */
  function LinkedLast(m: Mem, t: int, c: int): Mem {
    var f := if t + PREV in m then m[t + PREV] else 0;
    m[f + NEXT := c][t + PREV := c][c + PREV := f][c + NEXT := t][c + PARENT := 0]
  }

  lemma LinkedLastWrites(m: Mem, treemap: bv32, ix: Index, k: Key, c: int, size: int)
    requires TrieOk(m, treemap, ix) && SizesOk(m, ix.sizes) && CanAdd(m, ix, c, size) && !IsSmall(size)
    requires FreeWords(m, c, size)
    requires Scratched(m, c, Bin(k)) && k in ix.trie && NodeReads(m, ix, k)
    ensures MemberWritten(m, LinkedLast(m, ix.trie[k][0], c), ix.trie[k], Bin(k), c)
    ensures m[ix.trie[k][0] + PREV] + NEXT in m && c + PREV in m && c + NEXT in m && c + PARENT in m
  {
    hide TrieOk, NodeOk, SizesOk, CanAdd, Owns, TreeIndex, Exp, Bin, MemberWritten, LinkedLast, Scratched;
    var r := ix.trie[k];
    var t, f := r[0], r[|r| - 1];
    TrieNode(m, treemap, ix, k);
    MemberWords(m, ix, k, |r| - 1);
    MemberWords(m, ix, k, 0);
    NewIsElsewhere(m, ix, c, size, t);
    NewIsElsewhere(m, ix, c, size, f);
    OneIsHigh(m, ix.sizes, t);
    OneIsHigh(m, ix.sizes, f);
    if t != f {
      LargeAreFar(m, ix.sizes, t, f);
    }
    hide NodeReads;
    LinkedWords(m, r, Bin(k), c);
  }

  lemma LinkedWords(m: Mem, r: seq<int>, bin: int, c: int)
    requires r != [] && Far(r[0], c) && Far(r[|r| - 1], c) && (r[0] == r[|r| - 1] || Far(r[0], r[|r| - 1]))
    requires r[0] % 16 == 0 && r[|r| - 1] % 16 == 0 && c % 16 == 0
    requires r[0] + PREV in m && m[r[0] + PREV] == r[|r| - 1] && r[|r| - 1] + NEXT in m
    requires c + PREV in m && c + NEXT in m && c + PARENT in m && Scratched(m, c, bin)
    ensures MemberWritten(m, LinkedLast(m, r[0], c), r, bin, c)
  {
  }

  // ---------- small bins ----------

  /** An unmarked bin has no chunk; a marked bin's header points at its last chunk. */
  lemma ReadSmallBin(m: Mem, smallmap: bv32, treemap: bv32, ix: Index, i: int)
    requires IndexOk(m, smallmap, treemap, ix) && 0 <= i < 32
    ensures |ix.small| == 32 && ix.small[i] != [] && ix.small[i][0] == SmallBinAt(i)
    ensures var h, r := SmallBinAt(i), ix.small[i];
      && h + PREV in m && h + NEXT in m
      && (Bit(smallmap, i) <==> |r| > 1)
      && (|r| > 1 ==>
            var p := r[|r| - 1];
            && m[h + PREV] == p && p in ix.sizes && ix.sizes[p] == 8 * i
            && FreeWords(m, p, 8 * i) && m[p + PREV] == r[|r| - 2] && r[|r| - 2] + NEXT in m)
  {
    hide SizesOk, TrieOk, Bit, Distinct;
    assert SmallBinOk(m, smallmap, ix, i);
    var r := ix.small[i];
    if |r| > 1 {
      RingNeighbours(m, r, 0);
      RingNeighbours(m, r, |r| - 1);
      RingNeighbours(m, r, |r| - 2);
      ReadChunk(m, ix.sizes, r[|r| - 1]);
    }
  }

  /** Where a binned small chunk is, and what its ring words say. */
  lemma SmallPlaceOf(m: Mem, smallmap: bv32, treemap: bv32, ix: Index, c: int) returns (j: int)
    requires IndexOk(m, smallmap, treemap, ix) && c in ix.sizes && IsSmall(ix.sizes[c])
    ensures |ix.small| == 32
    ensures var i := SmallIndex(ix.sizes[c]);
      && 0 <= i < 32 && ix.sizes[c] == 8 * i
      && var r := ix.small[i];
      && 0 < j < |r| && r[j] == c
      && c + PREV in m && m[c + PREV] == r[Pred(|r|, j)] && c + NEXT in m && m[c + NEXT] == r[Succ(|r|, j)]
      && (m[c + PREV] == m[c + NEXT] <==> |r| == 2)
      && m[c + PREV] + NEXT in m && m[c + NEXT] + PREV in m
  {
    hide SizesOk, TrieOk, Bit;
    ReadChunk(m, ix.sizes, c);
    var i := SmallIndex(ix.sizes[c]);
    assert SmallBinOk(m, smallmap, ix, i);
    var r := ix.small[i];
    j :| 0 <= j < |r| && r[j] == c;
    assert j > 0;
    RingNeighbours(m, r, j);
    RingNeighbours(m, r, Succ(|r|, j));
    RingNeighbours(m, r, Pred(|r|, j));
    DifferentAt(r, Pred(|r|, j), Succ(|r|, j));
  }

  lemma LinkLastIsLinks(m: Mem, smallmap: bv32, treemap: bv32, ix: Index, i: int, c: int, size: int)
    requires IndexOk(m, smallmap, treemap, ix) && 0 <= i < 32 && size == 8 * i && CanAdd(m, ix, c, size)
    ensures |ix.small| == 32
    ensures OnlyLinks(m, LinkLast(m, ix.small[i], c), ix.sizes[c := size])
  {
    hide SizesOk, TrieOk, Bit, Distinct, Ring;
    var r := ix.small[i];
    var sizes' := ix.sizes[c := size];
    assert SmallBinOk(m, smallmap, ix, i);
    assert IsSmall(size);
    OutsideOf(m, ix, c, size);
    BinEnds(m, smallmap, ix, i);
    hide CanAdd;
    assert c in sizes' && sizes'[c] == size;
    var f := r[|r| - 1];
    assert f != r[0] ==> f in sizes' && IsSmall(sizes'[f]);
  }

  lemma UnlinkAtIsLinks(m: Mem, smallmap: bv32, treemap: bv32, ix: Index, i: int, j: int)
    requires IndexOk(m, smallmap, treemap, ix) && 0 <= i < 32
    requires |ix.small| == 32 && 0 < j < |ix.small[i]|
    ensures OnlyLinks(m, UnlinkAt(m, ix.small[i], j), ix.sizes)
  {
    hide SizesOk, TrieOk, Bit, Distinct, Ring;
    Neighbourhood(m, smallmap, ix, i, j);
    var r := ix.small[i];
    var f, b := r[Pred(|r|, j)], r[Succ(|r|, j)];
    if f in ix.sizes {
      ReadChunk(m, ix.sizes, f);
    }
    if b in ix.sizes {
      ReadChunk(m, ix.sizes, b);
    }
  }

  lemma NewWords(m: Mem, ix: Index, c: int, size: int)
    requires CanAdd(m, ix, c, size)
    ensures FreeWords(m, c, size)
  {
    assert c in ix.sizes[c := size];
  }

  lemma FirstOnly(m: Mem, smallmap: bv32, treemap: bv32, ix: Index, i: int)
    requires IndexOk(m, smallmap, treemap, ix) && 0 <= i < 32
    ensures |ix.small| == 32
    ensures |ix.small[i]| >= 2 ==> (ix.small[i][|ix.small[i]| - 2] == SmallBinAt(i) <==> |ix.small[i]| == 2)
  {
    hide SizesOk, TrieOk, Bit;
    assert SmallBinOk(m, smallmap, ix, i);
    var r := ix.small[i];
    if |r| >= 2 {
      DifferentAt(r, 0, |r| - 2);
    }
  }

  lemma LargeIsLocated(m: Mem, smallmap: bv32, treemap: bv32, ix: Index, c: int)
    requires IndexOk(m, smallmap, treemap, ix) && c in ix.sizes && !IsSmall(ix.sizes[c])
    ensures c in ix.loc
  {
    hide SizesOk, SmallOk, TrieOk;
    LocatedOf(m, treemap, ix);
  }
}
