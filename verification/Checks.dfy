/**
 The consistency checks of src/dlmalloc.rs behind its `debug` feature, lines 1453-1688: none of them fails on a heap
 that meets the invariant. The checks against `least_addr` are left out, and so is `check_mmapped_chunk`, which is not
 reached.
 */
module Checks {
  import opened Words
  import opened Bits
  import opened Memory
  import opened SizeClasses
  import opened Rings
  import opened FreeIndex
  import opened TrieOps
  import opened IndexReads
  import opened Tiling
  import opened HeapState
  import opened HeapOps
  import opened Segments
  import opened Allocator

  // ---------- single chunks ----------

  /** `check_any_chunk` */
  predicate AnyChecks(m: Mem, p: int) {
    p + HEAD in m && (p % MALLOC_ALIGNMENT == 0 || m[p + HEAD] == FENCEPOST_HEAD)
  }

  /** What the head of the chunk behind `p` says of `p`. */
  predicate NextPinuse(m: Mem, p: int) {
    p + HEAD in m && var n := p + Size(m[p + HEAD]); n + HEAD in m && Pinuse(m[n + HEAD])
  }

  /** `check_inuse_chunk`: the chunk before a block is free only if its size leads back to the block. */
  predicate InuseChecks(m: Mem, p: int) {
    && AnyChecks(m, p) && Inuse(m[p + HEAD]) && NextPinuse(m, p) && !Mmapped(m[p + HEAD])
    && (Pinuse(m[p + HEAD]) || (p in m && NextIs(m, p - m[p], p)))
  }

  predicate NextIs(m: Mem, p: int, n: int) { p + HEAD in m && p + Size(m[p + HEAD]) == n }

  /** `check_free_chunk`: a binned chunk has its foot, used chunks on both sides, and its links are mutual. */
  predicate FreeChecks(m: Mem, dv: int, top: int, p: int) {
    && AnyChecks(m, p) && !Inuse(m[p + HEAD]) && !Mmapped(m[p + HEAD])
    && var sz := Size(m[p + HEAD]);
    var n := p + sz;
    && n + HEAD in m && !Pinuse(m[n + HEAD])
    && (p != dv && p != top ==>
          if sz >= MIN_CHUNK_SIZE then
            && AlignUp(sz, MALLOC_ALIGNMENT) == sz && p % MALLOC_ALIGNMENT == 0
            && n in m && m[n] == sz && Pinuse(m[p + HEAD]) && (n == top || Inuse(m[n + HEAD]))
            && LinksMutual(m, p)
          else
            sz == WORD_BYTES)
  }

  predicate LinksMutual(m: Mem, p: int) {
    && p + NEXT in m && m[p + NEXT] + PREV in m && m[m[p + NEXT] + PREV] == p
    && p + PREV in m && m[p + PREV] + NEXT in m && m[m[p + PREV] + NEXT] == p
  }

  lemma InuseHolds(h: Heap, p: int)
    requires Good(h, {}) && p in h.cs && (h.cs[p].kind.Live? || h.cs[p].kind.Rec?)
    ensures InuseChecks(h.m, p)
  {
    hide Good, Size;
    ReadTags(h, {}, p);
    ReadNext(h, {}, p);
    ReadTags(h, {}, p + h.cs[p].size);
    if !h.cs[p].pin {
      ReadPrev(h, {}, p);
      ReadTags(h, {}, p - h.m[p]);
    }
  }

  lemma FreeHolds(h: Heap, p: int)
    requires Good(h, {}) && p in h.cs && h.cs[p].kind.Free?
    ensures FreeChecks(h.m, h.dv, h.top, p)
  {
    hide Good, Size, LinksMutual;
    ReadTags(h, {}, p);
    ReadNext(h, {}, p);
    ReadTags(h, {}, p + h.cs[p].size);
    HeadOf(h, {}, p);
    WhereFree(h, {}, p);
    if p != h.dv {
      GoodIndex(h, {});
      MutualOf(h.m, h.smallmap, h.treemap, h.ix, p);
    }
  }

  /** `check_malloced_chunk`, which `malloc` applies to the padded request */
  predicate MallocedChecks(m: Mem, p: int, s: int) {
    && InuseChecks(m, p)
    && var sz := m[p + HEAD] - InuseBits(m[p + HEAD]);
    && AlignUp(sz, MALLOC_ALIGNMENT) == sz && sz >= MIN_CHUNK_SIZE && sz >= s && sz < s + MIN_CHUNK_SIZE
  }

  lemma MallocedHolds(h: Heap, h': Heap, p: int, req: int, nb: int)
    requires Good(h', {}) && Allocated(h, h', p, req, nb)
    ensures MallocedChecks(h'.m, p, nb)
  {
    hide Good, InuseChecks, Untouched;
    InuseHolds(h', p);
    HeadOf(h', {}, p);
    ReadTags(h', {}, p);
  }

  /** The links of a binned chunk lead to neighbours that lead back. */
  lemma MutualOf(m: Mem, smallmap: bv32, treemap: bv32, ix: Index, c: int)
    requires IndexOk(m, smallmap, treemap, ix) && c in ix.sizes
    ensures LinksMutual(m, c)
  {
    hide IndexOk, TrieOk, NodeOk, MemberOk, Ring;
    if IsSmall(ix.sizes[c]) {
      var j := SmallPlaceOf(m, smallmap, treemap, ix, c);
      var i := SmallIndex(ix.sizes[c]);
      MarkedRing(m, smallmap, treemap, ix, i);
      MutualAt(m, ix.small[i], j);
    } else {
      LargeIsLocated(m, smallmap, treemap, ix, c);
      TrieOf(m, smallmap, treemap, ix);
      LocatedOf(m, treemap, ix);
      var k := ix.loc[c];
      TrieNode(m, treemap, ix, k);
      NodeRing(m, ix, k);
      var i :| 0 <= i < |ix.trie[k]| && ix.trie[k][i] == c;
      MutualAt(m, ix.trie[k], i);
    }
  }

  lemma MutualAt(m: Mem, r: seq<int>, i: int)
    requires Ring(m, r) && 0 <= i < |r|
    ensures LinksMutual(m, r[i])
  {
    hide Ring;
    RingNeighbours(m, r, i);
    RingNeighbours(m, r, Succ(|r|, i));
    RingNeighbours(m, r, Pred(|r|, i));
  }

  lemma MarkedRing(m: Mem, smallmap: bv32, treemap: bv32, ix: Index, i: int)
    requires IndexOk(m, smallmap, treemap, ix) && 0 <= i < 32
    ensures |ix.small| == 32
    ensures var r := ix.small[i];
      && r != [] && r[0] == SmallBinAt(i) && Distinct(r) && SmallBinAt(i) + NEXT in m
      && (Bit(smallmap, i) <==> |r| > 1) && (|r| > 1 ==> Ring(m, r))
      && forall j :: 0 < j < |r| ==> r[j] in ix.sizes && ix.sizes[r[j]] == 8 * i
  {
    hide SizesOk, TrieOk, Bit, Ring, Distinct;
    assert SmallBinOk(m, smallmap, ix, i);
  }

  // ---------- top ----------

  /** `check_top_chunk`, lines 1465-1485 */
  method CheckTopChunk(d: Dlmalloc) returns (ok: bool)
    requires Good(d.State(), {}) && d.top != 0
    ensures ok
  {
    hide Good, Linked, Size;
    ghost var h := d.State();
    TopHasSegment(h);
    GoodLinked(h, {});
    HeadHoldsTop(h, {}, 0);
    var sp, i := d.SegmentHolding(d.top);
    assert sp != 0;
    HeadHoldsTop(h, {}, i);
    ReadRecord(d.mem, d.segs, 0);
    TopHolds(h);
    var sz := d.mem[d.top + HEAD] - InuseBits(d.mem[d.top + HEAD]);
    ok := sp != 0 && AnyChecks(d.mem, d.top) && sz == d.topsize && sz > 0
          && sz == d.mem[sp] + d.mem[sp + SEG_SIZE] - d.top - TOP_FOOT_SIZE
          && Pinuse(d.mem[d.top + HEAD]) && !Pinuse(d.mem[d.top + sz + HEAD]);
  }

  lemma TopHolds(h: Heap)
    requires Good(h, {}) && h.top != 0
    ensures h.top in h.cs && h.segs != [] && AnyChecks(h.m, h.top) && Pinuse(h.m[h.top + HEAD]) && h.topsize > 0
    ensures h.m[h.top + HEAD] - InuseBits(h.m[h.top + HEAD]) == h.topsize
    ensures h.topsize == h.segs[0].base + h.segs[0].size - h.top - TOP_FOOT_SIZE
    ensures h.top + h.topsize + HEAD in h.m && !Pinuse(h.m[h.top + h.topsize + HEAD])
  {
    hide Good, Size;
    TopHasSegment(h);
    Tail(h, {});
    ReadTags(h, {}, h.top);
    WhereFree(h, {}, h.top);
    HeadOf(h, {}, h.top);
    ReadNext(h, {}, h.top);
    ReadTags(h, {}, h.top + h.topsize);
    HeadOf(h, {}, h.top + h.topsize);
  }

  // ---------- small bins ----------

  /** `check_smallbin`, lines 1585-1608 */
  method CheckSmallBin(d: Dlmalloc, idx: int) returns (ok: bool)
    requires Good(d.State(), {}) && 0 <= idx < 32
    ensures ok
  {
    hide Good, Bit, Ring, Distinct, Size, Pinuse, InuseChecks, FreeChecks, IndexOk;
    ghost var h := d.State();
    GoodIndex(h, {});
    MarkedRing(d.mem, d.smallmap, d.treemap, d.ix, idx);
    ghost var r := d.ix.small[idx];
    var b := SmallBinAt(idx);
    var p := d.mem[b + NEXT];
    var empty := !Bit(d.smallmap, idx);
    if |r| > 1 {
      RingNeighbours(d.mem, r, 0);
      DifferentAt(r, 1, 0);
    }
    ok := p == b ==> empty;
    if !empty {
      ghost var j := 1;
      while p != b
        invariant ok && 0 < j <= |r| && p == (if j < |r| then r[j] else b)
        decreases |r| - j
      {
        SmallMember(h, idx, j);
        RingNeighbours(d.mem, r, j);
        if j + 1 < |r| {
          SmallMember(h, idx, j + 1);
        }
        var size := Size(d.mem[p + HEAD]);
        ok := ok && FreeChecks(d.mem, d.dv, d.top, p) && SmallIndex(size) == idx;
        var next := d.mem[p + NEXT];
        ok := ok && (next == b || Size(d.mem[next + HEAD]) == size);
        var q := p + size;
        if d.mem[q + HEAD] != FENCEPOST_HEAD {
          ok := ok && InuseChecks(d.mem, q);
        }
        p := next;
        j := j + 1;
      }
    }
  }

  /** What the checks find at a chunk of a small bin. */
  lemma SmallMember(h: Heap, i: int, j: int)
    requires Good(h, {}) && 0 <= i < 32 && |h.ix.small| == 32 && 0 < j < |h.ix.small[i]|
    ensures var p := h.ix.small[i][j];
      && p + HEAD in h.m && Size(h.m[p + HEAD]) == 8 * i && FreeChecks(h.m, h.dv, h.top, p)
      && var q := p + 8 * i;
         q + HEAD in h.m && (h.m[q + HEAD] != FENCEPOST_HEAD ==> InuseChecks(h.m, q))
  {
    hide Good, Size, Pinuse, Bit, Ring, Distinct, IndexOk, InuseChecks, FreeChecks;
    var p := h.ix.small[i][j];
    GoodIndex(h, {});
    MarkedRing(h.m, h.smallmap, h.treemap, h.ix, i);
    BinnedSize(h, {}, p);
    FreeHolds(h, p);
    ReadTags(h, {}, p);
    ReadNext(h, {}, p);
    var q := p + 8 * i;
    HeadOf(h, {}, q);
    if h.m[q + HEAD] != FENCEPOST_HEAD {
      InuseHolds(h, q);
    }
  }

  // ---------- tree bins ----------

  /** What `check_tree` asserts of every chunk on the ring of a node. */
  predicate MemberChecks(m: Mem, u: int, tindex: int, tsize: int) {
    && AnyChecks(m, u) && u + INDEX in m && m[u + INDEX] == tindex
    && Size(m[u + HEAD]) == tsize && !Inuse(m[u + HEAD])
    && u + tsize + HEAD in m && !Pinuse(m[u + tsize + HEAD])
    && LinksMutual(m, u)
  }

  /** A node hangs from its parent or from its bin; the slot of the bin is looked at first. */
  predicate ParentChecks(m: Mem, u: int) {
    && u + PARENT in m
    && var parent := m[u + PARENT];
    && parent != u
    && (|| (parent in m && m[parent] == u)
        || (parent + LEFT in m && m[parent + LEFT] == u)
        || (parent + RIGHT in m && m[parent + RIGHT] == u))
  }

  /** What it asserts of a child. */
  predicate KidChecks(m: Mem, kid: int, u: int) {
    kid != 0 ==> kid + PARENT in m && m[kid + PARENT] == u && kid != u
  }

  lemma MemberHolds(h: Heap, k: Key, i: int)
    requires Good(h, {}) && k in h.ix.trie && 0 <= i < |h.ix.trie[k]| && h.ix.trie[k][0] in h.ix.sizes
    ensures MemberChecks(h.m, h.ix.trie[k][i], Bin(k), h.ix.sizes[h.ix.trie[k][0]])
    ensures i > 0 ==> TailMember(h.m, h.ix.trie[k][i])
    ensures h.ix.trie[k][i] + PREV in h.m && h.m[h.ix.trie[k][i] + PREV] == h.ix.trie[k][Pred(|h.ix.trie[k]|, i)]
  {
    hide Good, IndexOk, TrieOk, NodeOk, Owns, TreeIndex, Bin, Size, Ring, Distinct, LinksMutual;
    var u := h.ix.trie[k][i];
    GoodIndex(h, {});
    TrieOf(h.m, h.smallmap, h.treemap, h.ix);
    TrieNode(h.m, h.treemap, h.ix, k);
    NodeRing(h.m, h.ix, k);
    RingNeighbours(h.m, h.ix.trie[k], i);
    MutualAt(h.m, h.ix.trie[k], i);
    NodeMember(h.m, h.ix, k, i);
    BinnedSize(h, {}, u);
    FreeHolds(h, u);
    ReadTags(h, {}, u);
  }

  /** Ring members behind the node have no place in the tree. */
  predicate TailMember(m: Mem, u: int) {
    && u + PARENT in m && m[u + PARENT] == 0
    && u + LEFT in m && m[u + LEFT] == 0 && u + RIGHT in m && m[u + RIGHT] == 0
  }

  lemma NodeHolds(h: Heap, k: Key)
    requires Good(h, {}) && k in h.ix.trie && NodeReads(h.m, h.ix, k)
    ensures var u := NodeAt(h.ix.trie, k);
      var parent, left, right := h.m[u + PARENT], h.m[u + LEFT], h.m[u + RIGHT];
      && parent != 0 && ParentChecks(h.m, u)
      && KidChecks(h.m, left, u) && KidChecks(h.m, right, u)
      && (left != 0 <==> Kid(k, false) in h.ix.trie) && (right != 0 <==> Kid(k, true) in h.ix.trie)
  {
    hide Good, IndexOk, Owns, TreeIndex, Bin, Exp, Size, ParentChecks, KidChecks;
    ParentHolds(h, k);
    KidHolds(h, k, false);
    KidHolds(h, k, true);
  }

  lemma ParentHolds(h: Heap, k: Key)
    requires Good(h, {}) && k in h.ix.trie && NodeReads(h.m, h.ix, k)
    ensures ParentChecks(h.m, NodeAt(h.ix.trie, k)) && h.m[NodeAt(h.ix.trie, k) + PARENT] != 0
  {
    hide Good, IndexOk, TrieOk, Owns, TreeIndex, Bin, Exp, Size;
    GoodIndex(h, {});
    TrieOf(h.m, h.smallmap, h.treemap, h.ix);
    SlotHolds(h.m, h.treemap, h.ix, k);
    if k.Kid? {
      ReadNode(h.m, h.smallmap, h.treemap, h.ix, k.up);
    } else {
      RootBelow(h, k);
    }
  }

  lemma KidHolds(h: Heap, k: Key, right: bool)
    requires Good(h, {}) && k in h.ix.trie && NodeReads(h.m, h.ix, k)
    ensures KidChecks(h.m, NodeAt(h.ix.trie, Kid(k, right)), NodeAt(h.ix.trie, k))
    ensures NodeAt(h.ix.trie, Kid(k, right)) != 0 <==> Kid(k, right) in h.ix.trie
  {
    hide Good, IndexOk, TrieOk, Owns, TreeIndex, Bin, Exp, Size;
    GoodIndex(h, {});
    TrieOf(h.m, h.smallmap, h.treemap, h.ix);
    KidsPointUp(h.m, h.treemap, h.ix, k);
    ReadKid(h.m, h.smallmap, h.treemap, h.ix, k, right);
    if Kid(k, right) in h.ix.trie {
      ReadNode(h.m, h.smallmap, h.treemap, h.ix, Kid(k, right));
    }
  }

  /** Chunks lie above the bins. */
  lemma RootBelow(h: Heap, k: Key)
    requires Good(h, {}) && k in h.ix.trie && NodeReads(h.m, h.ix, k) && k.Root?
    ensures 0 < ParentOf(h.ix.trie, k) < NodeAt(h.ix.trie, k)
  {
    hide Good, Owns, TreeIndex, Size;
    BinnedSize(h, {}, NodeAt(h.ix.trie, k));
    ReadTags(h, {}, NodeAt(h.ix.trie, k));
  }

  /** The two children of a node hold smaller and larger sizes. */
  lemma KidSizes(h: Heap, k: Key)
    requires Good(h, {}) && k in h.ix.trie && Kid(k, false) in h.ix.trie && Kid(k, true) in h.ix.trie
    ensures var left, right := NodeAt(h.ix.trie, Kid(k, false)), NodeAt(h.ix.trie, Kid(k, true));
      && left + HEAD in h.m && right + HEAD in h.m && Size(h.m[left + HEAD]) < Size(h.m[right + HEAD])
  {
    hide Good, IndexOk, Size, TreeIndex, Bin, Lo, Hi;
    GoodIndex(h, {});
    ReadNode(h.m, h.smallmap, h.treemap, h.ix, Kid(k, false));
    ReadNode(h.m, h.smallmap, h.treemap, h.ix, Kid(k, true));
    KidsHalve(k);
  }

  /** `check_treebin`, lines 1610-1622 */
  method CheckTreeBin(d: Dlmalloc, idx: int) returns (ok: bool)
    requires Good(d.State(), {}) && 0 <= idx < 32
    ensures ok
  {
    hide Good, Bit, IndexOk;
    GoodIndex(d.State(), {});
    ReadTreeBin(d.mem, d.smallmap, d.treemap, d.ix, idx);
    var t := d.mem[TreeBinAt(idx)];
    var empty := !Bit(d.treemap, idx);
    ok := t == 0 ==> empty;
    if !empty {
      var tree := CheckTree(d, t, Root(idx));
      ok := ok && tree;
    }
  }

  /** What the checks read off the node at `k`. */
  lemma TreeNode(h: Heap, k: Key)
    requires Good(h, {}) && k in h.ix.trie
    ensures NodeReads(h.m, h.ix, k) && Distinct(h.ix.trie[k])
    ensures var t := NodeAt(h.ix.trie, k); t + INDEX in h.m && h.m[t + INDEX] == Bin(k)
  {
    hide Good, IndexOk, TrieOk, NodeOk, Owns, TreeIndex, Bin, Exp, Size, Ring, Distinct, MemberChecks;
    GoodIndex(h, {});
    ReadNode(h.m, h.smallmap, h.treemap, h.ix, k);
    TrieOf(h.m, h.smallmap, h.treemap, h.ix);
    TrieNode(h.m, h.treemap, h.ix, k);
    NodeRing(h.m, h.ix, k);
    NodeMember(h.m, h.ix, k, 0);
  }

  /** `check_tree`, lines 1624-1688: the ring of the node at `t`, and the trees of its children. */
  method CheckTree(d: Dlmalloc, t: int, ghost k: Key) returns (ok: bool)
    requires Good(d.State(), {}) && k in d.ix.trie && t == NodeAt(d.ix.trie, k) && Exp(k) >= 0
    ensures ok
    decreases Exp(k), 1
  {
    hide Good, IndexOk, TreeIndex, Owns, Bin, Exp, Size, MemberChecks, Ring, Distinct, MinSizeForTreeIndex,
         ParentChecks, KidChecks;
    ghost var h, r := d.State(), d.ix.trie[k];
    TreeNode(h, k);
    NodeHolds(h, k);
    var tindex := d.mem[t + INDEX];
    var tsize := Size(d.mem[t + HEAD]);
    TreeIndexInterval(tsize);
    var idx := TreeIndex(tsize);
    ok := tindex == idx && tsize >= MIN_LARGE_SIZE && tsize >= MinSizeForTreeIndex(idx)
          && (idx == 31 || tsize < MinSizeForTreeIndex(idx + 1));
    var u, head := t, 0;
    ghost var i := 0;
    while true
      invariant ok && 0 <= i < |r| && u == r[i] && head == (if i == 0 then 0 else t)
      decreases if i == 0 then |r| else i
    {
      MemberHolds(h, k, i);
      ok := ok && MemberChecks(d.mem, u, tindex, tsize);
      if d.mem[u + PARENT] == 0 {
        ok := ok && d.mem[u + LEFT] == 0 && d.mem[u + RIGHT] == 0;
      } else {
        ok := ok && head == 0;
        head := u;
        var kids := CheckNode(d, u, k);
        ok := ok && kids;
      }
      u := d.mem[u + PREV];
      i := Pred(|r|, i);
      DifferentAt(r, i, 0);
      if u == t {
        break;
      }
    }
    ok := ok && head != 0;
  }

  /** The part of `check_tree` for the one ring member that has a parent. */
  method CheckNode(d: Dlmalloc, u: int, ghost k: Key) returns (ok: bool)
    requires Good(d.State(), {}) && k in d.ix.trie && u == NodeAt(d.ix.trie, k) && Exp(k) >= 0
    ensures ok
    decreases Exp(k), 0
  {
    hide Good, IndexOk, TreeIndex, Owns, Bin, Size, Distinct, ParentChecks, KidChecks;
    ghost var h := d.State();
    TreeNode(h, k);
    NodeHolds(h, k);
    var left, right := d.mem[u + LEFT], d.mem[u + RIGHT];
    ok := ParentChecks(d.mem, u);
    if left != 0 {
      TreeNode(h, Kid(k, false));
      var tree := CheckTree(d, left, Kid(k, false));
      ok := ok && KidChecks(d.mem, left, u) && tree;
    }
    if right != 0 {
      TreeNode(h, Kid(k, true));
      var tree := CheckTree(d, right, Kid(k, true));
      ok := ok && KidChecks(d.mem, right, u) && tree;
    }
    if left != 0 && right != 0 {
      KidSizes(h, k);
      ok := ok && Size(d.mem[left + HEAD]) < Size(d.mem[right + HEAD]);
    }
  }
}
