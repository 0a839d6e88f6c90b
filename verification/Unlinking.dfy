/** The states `unlink_large_chunk` passes through between finding a replacement and seating it. */
module Unlinking {
  import opened Bits
  import opened Memory
  import opened SizeClasses
  import opened Rings
  import opened FreeIndex
  import opened Tries
  import opened TrieOps
  import opened TrieRemoval
  import opened IndexReads

  /** `x` is a chunk whose tree links are held words. */
  ghost predicate TreeWords(m: Mem, x: int) {
    && HEAP_START <= x && x % 16 == 0
    && x + LEFT in m && x + RIGHT in m && x + PARENT in m && x + INDEX in m
  }

  /** What the code reads around the node `c` at `k` when it is about to put `r`, possibly null, in its place. */
  ghost predicate SeatReady(m: Mem, trie: map<Key, seq<int>>, k: Key, c: int, r: int) {
    && NodeReady(m, trie, k, c)
    && UpReady(m, trie, k, c, r)
    && KidReady(m, trie, k, false, c, r) && KidReady(m, trie, k, true, c, r)
    && (Kid(k, false) in trie && Kid(k, true) in trie ==>
          Far(NodeAt(trie, Kid(k, false)), NodeAt(trie, Kid(k, true))))
    && (r != 0 ==> TreeWords(m, r) && Far(r, c) && m[r + LEFT] == 0 && m[r + RIGHT] == 0)
  }

  ghost predicate NodeReady(m: Mem, trie: map<Key, seq<int>>, k: Key, c: int) {
    && SlotOf(trie, k) in m && m[SlotOf(trie, k)] == c
    && TreeWords(m, c) && m[c + INDEX] == Bin(k) && 0 <= Bin(k) < 32
    && TreeBinAt(Bin(k)) in m && (k.Root? <==> m[TreeBinAt(Bin(k))] == c)
    && m[c + PARENT] == ParentOf(trie, k)
    && m[c + LEFT] == NodeAt(trie, Kid(k, false)) && m[c + RIGHT] == NodeAt(trie, Kid(k, true))
  }

  ghost predicate UpReady(m: Mem, trie: map<Key, seq<int>>, k: Key, c: int, r: int) {
    k.Kid? ==>
      var u := NodeAt(trie, k.up);
      && u != 0 && TreeWords(m, u) && Far(u, c) && (m[u + LEFT] == c <==> !k.right)
      && (r != 0 ==> Far(u, r))
  }

  ghost predicate KidReady(m: Mem, trie: map<Key, seq<int>>, k: Key, right: bool, c: int, r: int) {
    var x := NodeAt(trie, Kid(k, right));
    && (Kid(k, right) in trie <==> x != 0)
    && (x != 0 ==>
          && TreeWords(m, x) && Far(x, c)
          && (r != 0 ==> Far(x, r))
          && (k.Kid? ==> Far(x, NodeAt(trie, k.up))))
  }

  /** Two positions hold far apart nodes with tree words. */
  lemma NodesFar(m: Mem, smallmap: bv32, treemap: bv32, ix: Index, p: Key, q: Key)
    requires IndexOk(m, smallmap, treemap, ix) && p in ix.trie && q in ix.trie
    ensures TreeWords(m, NodeAt(ix.trie, p)) && NodeAt(ix.trie, p) != 0
    ensures p != q ==> Far(NodeAt(ix.trie, p), NodeAt(ix.trie, q))
  {
    hide IndexOk, SizesOk, Owns, TreeIndex, Exp, Bin;
    TrieOf(m, smallmap, treemap, ix);
    ReadNode(m, smallmap, treemap, ix, p);
    ReadNode(m, smallmap, treemap, ix, q);
    ReadChunk(m, ix.sizes, NodeAt(ix.trie, p));
    if p != q {
      LargeAreFar(m, ix.sizes, NodeAt(ix.trie, p), NodeAt(ix.trie, q));
    }
  }

  /** The replacement is null, or a large chunk that is at no other position and has no children. */
  ghost predicate Candidate(m: Mem, ix: Index, sizes: map<int, int>, k: Key, r: int) {
    r != 0 ==>
      && SizesOk(m, sizes) && (forall a :: a in ix.sizes ==> a in sizes && sizes[a] == ix.sizes[a])
      && r in sizes && !IsSmall(sizes[r]) && (r in ix.loc ==> ix.loc[r] == k)
      && r != NodeAt(ix.trie, k)
      && TreeWords(m, r) && m[r + LEFT] == 0 && m[r + RIGHT] == 0
  }

  lemma CandidateFar(m: Mem, smallmap: bv32, treemap: bv32, ix: Index, sizes: map<int, int>, k: Key, r: int, q: Key)
    requires IndexOk(m, smallmap, treemap, ix) && k in ix.trie && q in ix.trie
    requires Candidate(m, ix, sizes, k, r) && r != 0
    ensures Far(NodeAt(ix.trie, q), r)
  {
    hide IndexOk, SizesOk, Owns, TreeIndex, Exp, Bin;
    ReadNode(m, smallmap, treemap, ix, q);
    LargeAreFar(m, sizes, NodeAt(ix.trie, q), r);
  }

  lemma KidIsReady(m: Mem, smallmap: bv32, treemap: bv32, ix: Index, sizes: map<int, int>, k: Key, r: int, right: bool)
    requires IndexOk(m, smallmap, treemap, ix) && k in ix.trie
    requires Candidate(m, ix, sizes, k, r)
    ensures KidReady(m, ix.trie, k, right, NodeAt(ix.trie, k), r)
  {
    hide IndexOk, Candidate;
    ReadKid(m, smallmap, treemap, ix, k, right);
    ReadNode(m, smallmap, treemap, ix, k);
    hide NodeReads;
    if Kid(k, right) in ix.trie {
      NodesFar(m, smallmap, treemap, ix, Kid(k, right), k);
      if r != 0 {
        CandidateFar(m, smallmap, treemap, ix, sizes, k, r, Kid(k, right));
      }
      if k.Kid? {
        assert k.up in ix.trie by { ReadNode(m, smallmap, treemap, ix, k); ParentKey(m, ix, k); }
        NodesFar(m, smallmap, treemap, ix, Kid(k, right), k.up);
      }
    }
  }

  lemma ParentKey(m: Mem, ix: Index, k: Key)
    requires NodeReads(m, ix, k)
    ensures k.Kid? ==> k.up in ix.trie
  {
  }

  /** A node of a well-formed index is ready to be replaced by a candidate. */
  lemma SeatOf(m: Mem, smallmap: bv32, treemap: bv32, ix: Index, sizes: map<int, int>, k: Key, r: int)
    requires IndexOk(m, smallmap, treemap, ix) && k in ix.trie
    requires Candidate(m, ix, sizes, k, r)
    ensures SeatReady(m, ix.trie, k, NodeAt(ix.trie, k), r)
  {
    hide IndexOk, KidReady, UpReady, NodeReady;
    KidIsReady(m, smallmap, treemap, ix, sizes, k, r, false);
    KidIsReady(m, smallmap, treemap, ix, sizes, k, r, true);
    NodeIsReady(m, smallmap, treemap, ix, k);
    UpIsReady(m, smallmap, treemap, ix, sizes, k, r);
    if r != 0 {
      CandidateFar(m, smallmap, treemap, ix, sizes, k, r, k);
    }
    if Kid(k, false) in ix.trie && Kid(k, true) in ix.trie {
      NodesFar(m, smallmap, treemap, ix, Kid(k, false), Kid(k, true));
    }
  }

  lemma NodeIsReady(m: Mem, smallmap: bv32, treemap: bv32, ix: Index, k: Key)
    requires IndexOk(m, smallmap, treemap, ix) && k in ix.trie
    ensures NodeReady(m, ix.trie, k, NodeAt(ix.trie, k))
  {
    hide IndexOk, TrieOk, NodeOk, Owns, TreeIndex, Exp;
    NodesFar(m, smallmap, treemap, ix, k, k);
    TrieOf(m, smallmap, treemap, ix);
    SlotHolds(m, treemap, ix, k);
    TrieNode(m, treemap, ix, k);
    NodeFacts(m, ix, k);
    ReadTreeBin(m, smallmap, treemap, ix, Bin(k));
    if Root(Bin(k)) in ix.trie && k != Root(Bin(k)) {
      NodesFar(m, smallmap, treemap, ix, k, Root(Bin(k)));
    }
    assert HeadLinks(m, ix.trie, k);
    LinksOf(m, ix.trie, k);
  }

  lemma UpIsReady(m: Mem, smallmap: bv32, treemap: bv32, ix: Index, sizes: map<int, int>, k: Key, r: int)
    requires IndexOk(m, smallmap, treemap, ix) && k in ix.trie
    requires Candidate(m, ix, sizes, k, r)
    ensures UpReady(m, ix.trie, k, NodeAt(ix.trie, k), r)
  {
    hide IndexOk, Candidate, Owns, TreeIndex, Exp;
    if k.Kid? {
      assert k.up in ix.trie by { ReadNode(m, smallmap, treemap, ix, k); ParentKey(m, ix, k); }
      NodesFar(m, smallmap, treemap, ix, k.up, k);
      NodesFar(m, smallmap, treemap, ix, k, k);
      ReadNode(m, smallmap, treemap, ix, k.up);
      if Kid(k.up, !k.right) in ix.trie {
        NodesFar(m, smallmap, treemap, ix, Kid(k.up, !k.right), k);
      }
      if r != 0 {
        CandidateFar(m, smallmap, treemap, ix, sizes, k, r, k.up);
      }
    }
  }

  // ---------- the two ways to find a replacement ----------

  lemma SeatKept(m: Mem, m': Mem, trie: map<Key, seq<int>>, k: Key, c: int, r: int)
    requires SeatReady(m, trie, k, c, r)
    requires m'.Keys == m.Keys && SameTreeWords(m, m', c) && SameAt(m, m', TreeBinAt(Bin(k)))
    requires k.Kid? ==> SameTreeWords(m, m', NodeAt(trie, k.up))
    requires r != 0 ==> SameTreeWords(m, m', r)
    ensures SeatReady(m', trie, k, c, r)
  {
  }

  /** Skipping the node in its ring writes no tree word. */
  lemma SkipKeepsTreeWords(m: Mem, smallmap: bv32, treemap: bv32, ix: Index, k: Key, q: Key, i: int)
    requires IndexOk(m, smallmap, treemap, ix) && k in ix.trie && |ix.trie[k]| >= 2
    requires q in ix.trie && 0 <= i < |ix.trie[q]|
    ensures UnlinkAt(m, ix.trie[k], 0).Keys == m.Keys
    ensures SameTreeWords(m, UnlinkAt(m, ix.trie[k], 0), ix.trie[q][i])
    ensures SameAt(m, UnlinkAt(m, ix.trie[k], 0), TreeBinAt(Bin(k)))
  {
    hide IndexOk, NodeAt, TreeWords, SameTreeWords, SameAt, Far, TreeBinAt;
    var r := ix.trie[k];
    MembersFar(m, smallmap, treemap, ix, q, i, k, |r| - 1);
    MembersFar(m, smallmap, treemap, ix, q, i, k, 1);
    BinBelowHeap(m, smallmap, treemap, ix, k);
    RingWritesMiss(m, ix.trie[q][i], r[|r| - 1], r[1], TreeBinAt(Bin(k)));
  }

  lemma BinBelowHeap(m: Mem, smallmap: bv32, treemap: bv32, ix: Index, k: Key)
    requires IndexOk(m, smallmap, treemap, ix) && k in ix.trie
    ensures 0 <= Bin(k) < 32 && TreeBinAt(Bin(k)) in m && TreeBinAt(Bin(k)) < HEAP_START
  {
    hide IndexOk, Owns, TreeIndex, Exp;
    ReadNode(m, smallmap, treemap, ix, k);
    ReadTreeBin(m, smallmap, treemap, ix, Bin(k));
  }

  lemma MembersFar(m: Mem, smallmap: bv32, treemap: bv32, ix: Index, q: Key, i: int, k: Key, j: int)
    requires IndexOk(m, smallmap, treemap, ix)
    requires q in ix.trie && 0 <= i < |ix.trie[q]| && k in ix.trie && 0 <= j < |ix.trie[k]|
    ensures var e, x := ix.trie[q][i], ix.trie[k][j];
      && TreeWords(m, e) && (e == x || Far(e, x))
      && HEAP_START <= x && x % 16 == 0 && x + PREV in m && x + NEXT in m
  {
    hide IndexOk, SizesOk, TrieOk, NodeOk;
    TrieOf(m, smallmap, treemap, ix);
    TrieNode(m, treemap, ix, k);
    TrieNode(m, treemap, ix, q);
    MemberWords(m, ix, k, j);
    MemberWords(m, ix, q, i);
    OneIsHigh(m, ix.sizes, ix.trie[q][i]);
    OneIsHigh(m, ix.sizes, ix.trie[k][j]);
    if ix.trie[q][i] != ix.trie[k][j] {
      LargeAreFar(m, ix.sizes, ix.trie[q][i], ix.trie[k][j]);
    }
  }

  lemma RingWritesMiss(m: Mem, e: int, f: int, b: int, t: int)
    requires TreeWords(m, e) && (e == f || Far(e, f)) && (e == b || Far(e, b))
    requires HEAP_START <= f && HEAP_START <= b && f % 16 == 0 && b % 16 == 0 && t in m && t < HEAP_START
    requires f + NEXT in m && b + PREV in m
    ensures var m' := m[f + NEXT := b][b + PREV := f];
      m'.Keys == m.Keys && SameTreeWords(m, m', e) && SameAt(m, m', t)
  {
  }

  /** A node with company is replaced by the next member of its ring. */
  lemma NextIsCandidate(m: Mem, smallmap: bv32, treemap: bv32, ix: Index, k: Key)
    requires IndexOk(m, smallmap, treemap, ix) && k in ix.trie && |ix.trie[k]| >= 2
    ensures SeatReady(UnlinkAt(m, ix.trie[k], 0), ix.trie, k, NodeAt(ix.trie, k), ix.trie[k][1])
    ensures ix.trie[k][1] != 0
  {
    hide IndexOk, SizesOk, TrieOk, NodeOk, Owns, TreeIndex, Exp, SeatReady, UnlinkAt;
    var r := ix.trie[k];
    var m1 := UnlinkAt(m, r, 0);
    TrieOf(m, smallmap, treemap, ix);
    TrieNode(m, treemap, ix, k);
    NodeMember(m, ix, k, 1);
    MemberWords(m, ix, k, 1);
    NodeFacts(m, ix, k);
    NodeRing(m, ix, k);
    DifferentAt(r, 0, 1);
    OneIsHigh(m, ix.sizes, r[1]);
    assert Candidate(m, ix, ix.sizes, k, r[1]);
    SeatOf(m, smallmap, treemap, ix, ix.sizes, k, r[1]);
    SkipKeepsTreeWords(m, smallmap, treemap, ix, k, k, 0);
    SkipKeepsTreeWords(m, smallmap, treemap, ix, k, k, 1);
    if k.Kid? {
      NodeHasParent(m, ix, k);
      TrieNode(m, treemap, ix, k.up);
      NodeFacts(m, ix, k.up);
      SkipKeepsTreeWords(m, smallmap, treemap, ix, k, k.up, 0);
    }
    SeatKept(m, m1, ix.trie, k, r[0], r[1]);
  }

  /** A lone inner node is replaced by a leaf below it, once that leaf's slot is cleared. */
  lemma LeafIsCandidate(m: Mem, smallmap: bv32, treemap: bv32, ix: Index, leaf: Key, k: Key)
    requires IndexOk(m, smallmap, treemap, ix) && Leaf(ix, leaf) && leaf != k && Under(k, leaf)
    requires k in ix.trie && |ix.trie[k]| == 1 && ix.trie[leaf] != []
    ensures SlotOf(ix.trie, leaf) in m && m[SlotOf(ix.trie, leaf)] == NodeAt(ix.trie, leaf) != 0
    ensures SeatReady(m[SlotOf(ix.trie, leaf) := 0], ix.trie - {leaf}, k, NodeAt(ix.trie, k), NodeAt(ix.trie, leaf))
  {
    hide IndexOk, SizesOk, TrieOk, NodeOk, Owns, TreeIndex, Exp, SeatReady, Bit, OnlyTreeWords;
    var ix1 := DropNode(ix, leaf);
    var r := NodeAt(ix.trie, leaf);
    var m1 := m[SlotOf(ix.trie, leaf) := 0];
    TrieOf(m, smallmap, treemap, ix);
    TrieNode(m, treemap, ix, leaf);
    NodeHasParent(m, ix, leaf);
    TrieNode(m, treemap, ix, leaf.up);
    SlotHolds(m, treemap, ix, leaf);
    ReadNode(m, smallmap, treemap, ix, leaf);
    NodesFar(m, smallmap, treemap, ix, leaf, leaf);
    NodesFar(m, smallmap, treemap, ix, leaf, k);
    RemoveLeaf(m, m1, smallmap, treemap, treemap, ix, leaf);
    TreeWordsKeepSizes(m, m1, ix.sizes);
    LeafWordsStay(m, ix, leaf, 0);
    assert Candidate(m1, ix1, ix.sizes, k, r) by {
      assert r in Members(ix.trie[leaf]);
    }
    SeatOf(m1, smallmap, treemap, ix1, ix.sizes, k, r);
  }

  // ---------- seating the replacement ----------

  function AdoptKid(m: Mem, r: int, child: int, x: int): Mem {
    if x == 0 then m else m[r + child := x][x + PARENT := r]
  }

  /** Everything `unlink_large_chunk` writes to seat `r` at `k`. */
  ghost function Seated(m: Mem, trie: map<Key, seq<int>>, k: Key, r: int): Mem {
    var m1 := m[SlotOf(trie, k) := r][r + PARENT := ParentOf(trie, k)];
    AdoptKid(AdoptKid(m1, r, LEFT, NodeAt(trie, Kid(k, false))), r, RIGHT, NodeAt(trie, Kid(k, true)))
  }

  /** The slot of a position is far below, or beside, the words of the chunks around it. */
  lemma SlotIsElsewhere(m: Mem, trie: map<Key, seq<int>>, k: Key, c: int, r: int, x: int)
    requires SeatReady(m, trie, k, c, r) && r != 0
    requires x == c || x == r || (x != 0 && (x == NodeAt(trie, Kid(k, false)) || x == NodeAt(trie, Kid(k, true))))
    ensures TreeWords(m, x)
    ensures SlotOf(trie, k) < x || x + INDEX < SlotOf(trie, k)
  {
  }

  lemma SeatedDomain(m: Mem, trie: map<Key, seq<int>>, k: Key, c: int, r: int)
    requires SeatReady(m, trie, k, c, r) && r != 0
    ensures Seated(m, trie, k, r).Keys == m.Keys
  {
    hide Far;
  }

  /** One kid after the other, each write stays where it was put. */
  lemma SeatedMoves(m: Mem, trie: map<Key, seq<int>>, k: Key, c: int, r: int)
    requires SeatReady(m, trie, k, c, r) && r != 0
    ensures HeadMoved(m, Seated(m, trie, k, r), trie, k, r)
  {
    var slot, p := SlotOf(trie, k), ParentOf(trie, k);
    var x, y := NodeAt(trie, Kid(k, false)), NodeAt(trie, Kid(k, true));
    var m' := Seated(m, trie, k, r);
    SlotIsElsewhere(m, trie, k, c, r, r);
    if x != 0 {
      SlotIsElsewhere(m, trie, k, c, r, x);
    }
    if y != 0 {
      SlotIsElsewhere(m, trie, k, c, r, y);
    }
    SeatedDomain(m, trie, k, c, r);
    assert x != 0 ==> Far(x, r) && TreeWords(m, x);
    assert y != 0 ==> Far(y, r) && TreeWords(m, y);
    assert x != 0 && y != 0 ==> Far(x, y);
    assert slot in m && TreeWords(m, r) && m[r + LEFT] == 0 && m[r + RIGHT] == 0;
    assert Kid(k, false) in trie <==> x != 0;
    assert Kid(k, true) in trie <==> y != 0;
    hide SeatReady, SlotOf, ParentOf, NodeAt, HeadMoved;
    SeatedWords(m, slot, p, r, x, y);
    hide AdoptKid, TreeWords, Far;
    MovedOf(m, m', trie, k, r);
  }

  lemma MovedOf(m: Mem, m': Mem, trie: map<Key, seq<int>>, k: Key, r: int)
    requires var x, y := NodeAt(trie, Kid(k, false)), NodeAt(trie, Kid(k, true));
      && m'.Keys == m.Keys
      && SlotOf(trie, k) in m && m'[SlotOf(trie, k)] == r
      && r + PARENT in m && m'[r + PARENT] == ParentOf(trie, k)
      && r + LEFT in m && m'[r + LEFT] == x && r + RIGHT in m && m'[r + RIGHT] == y
      && (x != 0 ==> x + PARENT in m && m'[x + PARENT] == r) && (y != 0 ==> y + PARENT in m && m'[y + PARENT] == r)
      && (Kid(k, false) in trie <==> x != 0) && (Kid(k, true) in trie <==> y != 0)
      && forall w :: w in m && m'[w] != m[w] ==>
           w == SlotOf(trie, k) || w == r + PARENT || w == r + LEFT || w == r + RIGHT
           || (x != 0 && w == x + PARENT) || (y != 0 && w == y + PARENT)
    ensures HeadMoved(m, m', trie, k, r)
  {
  }

  lemma SeatedWords(m: Mem, slot: int, p: int, r: int, x: int, y: int)
    requires slot in m && TreeWords(m, r)
    requires slot < r || r + INDEX < slot
    requires x != 0 ==> TreeWords(m, x) && Far(x, r) && (slot < x || x + INDEX < slot)
    requires y != 0 ==> TreeWords(m, y) && Far(y, r) && (slot < y || y + INDEX < slot)
    requires x != 0 && y != 0 ==> Far(x, y)
    requires m[r + LEFT] == 0 && m[r + RIGHT] == 0
    ensures var m' := AdoptKid(AdoptKid(m[slot := r][r + PARENT := p], r, LEFT, x), r, RIGHT, y);
      && m'.Keys == m.Keys && m'[slot] == r && m'[r + PARENT] == p && m'[r + LEFT] == x && m'[r + RIGHT] == y
      && (x != 0 ==> m'[x + PARENT] == r) && (y != 0 ==> m'[y + PARENT] == r)
      && forall w :: w in m && m'[w] != m[w] ==>
           w == slot || w == r + PARENT || w == r + LEFT || w == r + RIGHT
           || (x != 0 && w == x + PARENT) || (y != 0 && w == y + PARENT)
  {
  }

  lemma SlotOfNode(m: Mem, smallmap: bv32, treemap: bv32, ix: Index, k: Key)
    requires IndexOk(m, smallmap, treemap, ix) && k in ix.trie
    ensures SlotOf(ix.trie, k) in m && m[SlotOf(ix.trie, k)] == NodeAt(ix.trie, k)
  {
    hide IndexOk, TrieOk;
    TrieOf(m, smallmap, treemap, ix);
    SlotHolds(m, treemap, ix, k);
  }

  /** Where a binned large chunk is, and what its words say about it. */
  lemma PlaceOf(m: Mem, smallmap: bv32, treemap: bv32, ix: Index, c: int) returns (j: int)
    requires IndexOk(m, smallmap, treemap, ix) && c in ix.loc
    ensures var k := ix.loc[c];
      && k in ix.trie && 0 <= j < |ix.trie[k]| && ix.trie[k][j] == c && 0 <= Bin(k) < 32
      && (j == 0 ==> NodeReads(m, ix, k))
      && c + PARENT in m && (m[c + PARENT] != 0 <==> j == 0)
      && (j == 0 ==> m[c + PARENT] == ParentOf(ix.trie, k))
      && c + NEXT in m && m[c + NEXT] == ix.trie[k][Succ(|ix.trie[k]|, j)]
      && c + PREV in m && m[c + PREV] == ix.trie[k][Pred(|ix.trie[k]|, j)]
      && (m[c + NEXT] != c <==> |ix.trie[k]| >= 2)
      && m[c + PREV] + NEXT in m && m[c + NEXT] + PREV in m
  {
    hide IndexOk, SizesOk, TrieOk, NodeOk, Owns, TreeIndex, Exp;
    var k := ix.loc[c];
    TrieOf(m, smallmap, treemap, ix);
    LocatedOf(m, treemap, ix);
    TrieNode(m, treemap, ix, k);
    var r := ix.trie[k];
    j :| 0 <= j < |r| && r[j] == c;
    NodeMember(m, ix, k, j);
    NodeRing(m, ix, k);
    RingNeighbours(m, r, j);
    RingNeighbours(m, r, Succ(|r|, j));
    RingNeighbours(m, r, Pred(|r|, j));
    DifferentAt(r, j, Succ(|r|, j));
    NodeFacts(m, ix, k);
    if j == 0 {
      ReadNode(m, smallmap, treemap, ix, k);
      if k.Kid? {
        ReadNode(m, smallmap, treemap, ix, k.up);
      }
    }
  }

  lemma UnlinkWrites(m: Mem, r: seq<int>, j: int)
    requires 0 <= j < |r|
    ensures UnlinkAt(m, r, j) == m[r[Pred(|r|, j)] + NEXT := r[Succ(|r|, j)]][r[Succ(|r|, j)] + PREV := r[Pred(|r|, j)]]
  {
  }

  /** A lone leaf is ready to be cut off. */
  lemma AloneIsReady(m: Mem, smallmap: bv32, treemap: bv32, ix: Index, k: Key)
    requires IndexOk(m, smallmap, treemap, ix) && k in ix.trie
    ensures SeatReady(m, ix.trie, k, NodeAt(ix.trie, k), 0)
    ensures SlotOf(ix.trie, k) in m
  {
    hide IndexOk, SeatReady;
    SeatOf(m, smallmap, treemap, ix, ix.sizes, k, 0);
    SlotOfNode(m, smallmap, treemap, ix, k);
  }

  lemma RootBits(treemap: bv32, treemap': bv32, k: Key)
    requires 0 <= Bin(k) < 32
    requires treemap' == if k.Root? then Clear(treemap, Bin(k)) else treemap
    ensures forall b :: 0 <= b < 32 ==> (Bit(treemap', b) <==> k != Root(b) && Bit(treemap, b))
  {
    hide Bit, Clear;
    ClearAll(treemap, Bin(k));
  }
}
