/** What `unlink_large_chunk` does to the index, case by case: ring member, ring head, leaf, and inner node. */
module TrieRemoval {
  import opened Bits
  import opened Memory
  import opened SizeClasses
  import opened Rings
  import opened FreeIndex
  import opened Tries
  import opened TrieOps

  function Members(r: seq<int>): set<int> { set e | e in r }

  // ---------- a ring takes over a position ----------

  /** What `r` gets when it takes the place of the node at `k`: slot, parent, and both kids with their parent words. */
  ghost predicate HeadMoved(m: Mem, m': Mem, trie: map<Key, seq<int>>, k: Key, r: int) {
    && m'.Keys == m.Keys
    && SlotOf(trie, k) in m && m'[SlotOf(trie, k)] == r
    && r + PARENT in m && m'[r + PARENT] == ParentOf(trie, k)
    && r + LEFT in m && m'[r + LEFT] == NodeAt(trie, Kid(k, false))
    && r + RIGHT in m && m'[r + RIGHT] == NodeAt(trie, Kid(k, true))
    && (forall right :: Kid(k, right) in trie ==>
          && NodeAt(trie, Kid(k, right)) + PARENT in m && m'[NodeAt(trie, Kid(k, right)) + PARENT] == r)
    && (forall w :: w in m && m'[w] != m[w] ==>
          w == SlotOf(trie, k) || w == r + PARENT || w == r + LEFT || w == r + RIGHT || KidParent(trie, k, w))
  }

  /** A chunk that is far from the nodes around `k` and from the new one keeps its links. */
  lemma MovedMisses(m: Mem, m': Mem, trie: map<Key, seq<int>>, k: Key, r: int, e: int)
    requires HeadMoved(m, m', trie, k, r) && HEAP_START <= e && 0 <= Bin(k) < 32
    requires k.Kid? ==> Far(NodeAt(trie, k.up), e)
    requires Kid(k, false) in trie ==> Far(NodeAt(trie, Kid(k, false)), e)
    requires Kid(k, true) in trie ==> Far(NodeAt(trie, Kid(k, true)), e)
    requires e == r || Far(e, r)
    requires e + PREV in m && e + NEXT in m && e + LEFT in m && e + RIGHT in m && e + PARENT in m && e + INDEX in m
    ensures SameRingWords(m, m', e) && SameAt(m, m', e + INDEX)
    ensures e != r ==> SameTreeWords(m, m', e)
  {
  }

  lemma RingWordsStay(m0: Mem, m: Mem, m': Mem, treemap: bv32, ix: Index, sizes: map<int, int>, xs: set<int>, k: Key,
                      r: int, e: int)
    requires TrieOk(m0, treemap, ix) && 0 <= Bin(k) < 32 && (k.Kid? ==> k.up in ix.trie)
    requires SizesOk(m0, sizes) && Rewritten(ix, sizes, xs, k) && e in xs && r in xs
    requires HeadMoved(m, m', ix.trie, k, r)
    requires e + PREV in m && e + NEXT in m && e + LEFT in m && e + RIGHT in m && e + PARENT in m && e + INDEX in m
    ensures SameRingWords(m, m', e) && SameAt(m, m', e + INDEX)
    ensures e != r ==> SameTreeWords(m, m', e)
  {
    hide TrieOk, SizesOk, HeadMoved, Far, SameRingWords, SameTreeWords, SameAt;
    OneIsHigh(m0, sizes, e);
    if k.Kid? {
      NodeAwayFrom(m0, treemap, ix, sizes, xs, k, k.up);
    }
    if Kid(k, false) in ix.trie {
      NodeAwayFrom(m0, treemap, ix, sizes, xs, k, Kid(k, false));
    }
    if Kid(k, true) in ix.trie {
      NodeAwayFrom(m0, treemap, ix, sizes, xs, k, Kid(k, true));
    }
    if e != r {
      LargeAreFar(m0, sizes, e, r);
    }
    MovedMisses(m, m', ix.trie, k, r, e);
  }

  /** The ring words of the ring that takes over stay as they are, and every tree word but those of its head. */
  lemma RingStays(m0: Mem, m: Mem, m': Mem, treemap: bv32, ix: Index, ix': Index, sizes: map<int, int>, xs: set<int>,
                  k: Key, i: int)
    requires TrieOk(m0, treemap, ix) && 0 <= Bin(k) < 32 && (k.Kid? ==> k.up in ix.trie)
    requires SizesOk(m0, sizes) && Rewritten(ix, sizes, xs, k)
    requires k in ix'.trie && 0 <= i < |ix'.trie[k]|
    requires Ring(m, ix'.trie[k]) && Distinct(ix'.trie[k]) && Members(ix'.trie[k]) <= xs && MemberOk(m, ix', k, i)
    requires HeadMoved(m, m', ix.trie, k, ix'.trie[k][0])
    ensures SameRingWords(m, m', ix'.trie[k][i]) && SameAt(m, m', ix'.trie[k][i] + INDEX)
    ensures i > 0 ==> SameTreeWords(m, m', ix'.trie[k][i])
  {
    hide TrieOk, SizesOk, Owns, TreeIndex, Bin, Distinct, HeadMoved, Rewritten;
    var r := ix'.trie[k];
    RingNeighbours(m, r, i);
    assert r[i] in Members(r) && r[0] in Members(r);
    DifferentAt(r, 0, i);
    hide Ring;
    RingWordsStay(m0, m, m', treemap, ix, sizes, xs, k, r[0], r[i]);
  }

  /** A member whose words stay is in order under the new links too. */
  lemma MemberStays(m: Mem, m': Mem, ix': Index, k: Key, i: int)
    requires k in ix'.trie && 0 <= i < |ix'.trie[k]| && MemberOk(m, ix', k, i) && SameAt(m, m', ix'.trie[k][i] + INDEX)
    requires i > 0 ==> SameTreeWords(m, m', ix'.trie[k][i])
    requires m'.Keys == m.Keys
    ensures MemberOk(m', ix', k, i)
  {
    hide Owns, TreeIndex, Bin;
  }

  /** The ring that takes over is a well-formed node there. */
  lemma TakesOver(m0: Mem, m: Mem, m': Mem, treemap: bv32, ix: Index, ix': Index, sizes: map<int, int>, xs: set<int>,
                  k: Key)
    requires TrieOk(m0, treemap, ix) && 0 <= Bin(k) < 32 && Exp(k) >= 0 && (k.Kid? ==> k.up in ix.trie)
    requires SizesOk(m0, sizes) && Rewritten(ix, sizes, xs, k)
    requires OnlyAt(ix, ix', k) && k in ix'.trie
    requires Ring(m, ix'.trie[k]) && Distinct(ix'.trie[k]) && Members(ix'.trie[k]) <= xs
    requires forall i :: 0 <= i < |ix'.trie[k]| ==> MemberOk(m, ix', k, i)
    requires HeadMoved(m, m', ix.trie, k, ix'.trie[k][0])
    ensures NodeOk(m', ix', k)
  {
    hide TrieOk, SizesOk, Owns, TreeIndex, Bin, Exp, Distinct, Rewritten, OnlyAt, Members;
    var r := ix'.trie[k];
    assert r != [];
    hide Ring;
    assert HeadLinks(m', ix'.trie, k) by { MovedLinks(m, m', ix, ix', k); }
    assert m'.Keys == m.Keys;
    hide HeadLinks, HeadMoved, MemberOk, SameAt, SameTreeWords;
    forall i | 0 <= i < |r|
      ensures SameRingWords(m, m', r[i]) && MemberOk(m', ix', k, i)
    {
      assert MemberOk(m, ix', k, i);
      RingStays(m0, m, m', treemap, ix, ix', sizes, xs, k, i);
      MemberStays(m, m', ix', k, i);
    }
    RingFrame(m, m', r);
    NodeOf(m', ix', k);
  }

  lemma MovedLinks(m: Mem, m': Mem, ix: Index, ix': Index, k: Key)
    requires OnlyAt(ix, ix', k) && k in ix'.trie && ix'.trie[k] != [] && (k.Kid? ==> k.up in ix.trie)
    requires HeadMoved(m, m', ix.trie, k, ix'.trie[k][0])
    ensures HeadLinks(m', ix'.trie, k)
  {
  }

  lemma MovedPointers(m: Mem, m': Mem, ix: Index, ix': Index, k: Key)
    requires k in ix'.trie && ix'.trie[k] != []
    requires HeadMoved(m, m', ix.trie, k, ix'.trie[k][0])
    ensures Repointed(m', ix, ix', k)
  {
  }

  lemma MovedAround(m0: Mem, m: Mem, m': Mem, trie: map<Key, seq<int>>, xs: set<int>, k: Key, r: int)
    requires HeadMoved(m, m', trie, k, r) && r in xs
    requires m.Keys == m0.Keys && forall w :: w in m0 && m[w] != m0[w] ==> NearAny(xs, w)
    ensures WritesAround(m0, m', trie, xs, k)
  {
  }

  // ---------- a ring of two or more loses a member ----------

  function DropMember(ix: Index, k: Key, j: int): Index
    requires k in ix.trie && 0 <= j < |ix.trie[k]|
  {
    var c := ix.trie[k][j];
    ix.(sizes := ix.sizes - {c}, trie := ix.trie[k := RemoveAt(ix.trie[k], j)], loc := ix.loc - {c})
  }

  /** The other members keep every word but the ring words that skip the removed one. */
  lemma UnlinkedMembers(m: Mem, ix: Index, k: Key, j: int)
    requires SizesOk(m, ix.sizes) && k in ix.trie && NodeOk(m, ix, k)
    requires |ix.trie[k]| >= 2 && 0 <= j < |ix.trie[k]|
    ensures var m', r' := UnlinkAt(m, ix.trie[k], j), RemoveAt(ix.trie[k], j);
      && m'.Keys == m.Keys && Ring(m', r') && Distinct(r')
      && forall i :: 0 <= i < |r'| ==> (i > 0 || j == 0 ==> r'[i] != ix.trie[k][0]) && SameTreeWords(m, m', r'[i])
    ensures forall w :: w in m && UnlinkAt(m, ix.trie[k], j)[w] != m[w] ==> NearAny(Members(ix.trie[k]), w)
  {
    hide NodeOk, SizesOk, Ring;
    var r := ix.trie[k];
    var n := |r|;
    var m', r' := UnlinkAt(m, r, j), RemoveAt(r, j);
    NodeRing(m, ix, k);
    UnlinkAtRing(m, r, j);
    DistinctRemove(r, j);
    MemberWords(m, ix, k, Pred(n, j));
    MemberWords(m, ix, k, Succ(n, j));
    assert r[Pred(n, j)] in Members(r) && r[Succ(n, j)] in Members(r);
    hide UnlinkAt, Distinct;
    forall i | 0 <= i < |r'|
      ensures (i > 0 || j == 0 ==> r'[i] != r[0]) && SameTreeWords(m, m', r'[i])
    {
      var i' := if i < j then i else i + 1;
      assert r'[i] == r[i'];
      UnlinkedMember(m, ix, k, j, i');
      DifferentAt(r, i', 0);
    }
  }

  lemma UnlinkedMember(m: Mem, ix: Index, k: Key, j: int, i: int)
    requires SizesOk(m, ix.sizes) && k in ix.trie && NodeOk(m, ix, k)
    requires |ix.trie[k]| >= 2 && 0 <= j < |ix.trie[k]| && 0 <= i < |ix.trie[k]|
    ensures SameTreeWords(m, UnlinkAt(m, ix.trie[k], j), ix.trie[k][i])
  {
    hide NodeOk, SizesOk, Ring;
    var n := |ix.trie[k]|;
    MemberWords(m, ix, k, i);
    RingMemberApart(m, ix, ix.sizes, k, i, Pred(n, j));
    RingMemberApart(m, ix, ix.sizes, k, i, Succ(n, j));
  }

  lemma RemainingMember(m: Mem, ix: Index, k: Key, j: int, i: int)
    requires SizesOk(m, ix.sizes) && k in ix.trie && NodeOk(m, ix, k)
    requires |ix.trie[k]| >= 2 && 0 <= j < |ix.trie[k]| && 0 <= i < |ix.trie[k]| - 1
    ensures MemberOk(UnlinkAt(m, ix.trie[k], j), DropMember(ix, k, j), k, i)
  {
    hide NodeOk, SizesOk, Ring, Distinct, Owns, TreeIndex, Bin;
    var r := ix.trie[k];
    var r', m' := RemoveAt(r, j), UnlinkAt(m, r, j);
    UnlinkedMembers(m, ix, k, j);
    assert SameTreeWords(m, m', r'[i]) && (i > 0 || j == 0 ==> r'[i] != r[0]);
    hide UnlinkAt, SameTreeWords;
    var i' := if i < j then i else i + 1;
    var h := if 0 < j then 0 else 1;
    assert r'[i] == r[i'] && r'[0] == r[h];
    assert r[i'] != r[j] && r[h] != r[j] by {
      NodeRing(m, ix, k);
      DifferentAt(r, i', j);
      DifferentAt(r, h, j);
    }
    assert MemberOk(m, ix, k, i') && MemberOk(m, ix, k, h) by {
      NodeMember(m, ix, k, i');
      NodeMember(m, ix, k, h);
    }
    StaysMember(m, m', ix, DropMember(ix, k, j), k, i', i, h);
  }

  /** Position `i'` of the old ring, seen at position `i` of the new one whose node was at position `h`. */
  lemma StaysMember(m: Mem, m': Mem, ix: Index, ix': Index, k: Key, i': int, i: int, h: int)
    requires k in ix.trie && k in ix'.trie && 0 <= i < |ix'.trie[k]|
    requires 0 <= i' < |ix.trie[k]| && 0 <= h < |ix.trie[k]| && i' >= i
    requires MemberOk(m, ix, k, i') && MemberOk(m, ix, k, h)
    requires ix'.trie[k][i] == ix.trie[k][i'] && ix'.trie[k][0] == ix.trie[k][h]
    requires var e, u := ix.trie[k][i'], ix.trie[k][h];
      && e in ix'.sizes && ix'.sizes[e] == ix.sizes[e] && u in ix'.sizes && ix'.sizes[u] == ix.sizes[u]
      && e in ix'.loc && ix'.loc[e] == k && SameTreeWords(m, m', e)
    ensures MemberOk(m', ix', k, i)
  {
    hide Owns, TreeIndex, Bin;
  }

  lemma DropMemberLocated(m: Mem, ix: Index, k: Key, j: int)
    requires Located(ix) && k in ix.trie && NodeOk(m, ix, k) && 0 <= j < |ix.trie[k]|
    ensures var ix' := DropMember(ix, k, j);
      Located(ix') && OnlyAt(ix, ix', k) && SameSmall(ix, ix') && Rewritten(ix, ix.sizes, Members(ix.trie[k]), k)
  {
    hide NodeOk;
    var r := ix.trie[k];
    NodeRing(m, ix, k);
    DistinctRemove(r, j);
    MemberWords(m, ix, k, j);
    forall e | e in Members(r)
      ensures e in ix.loc && ix.loc[e] == k && e in ix.sizes && !IsSmall(ix.sizes[e])
    {
      var i :| 0 <= i < |r| && r[i] == e;
      MemberWords(m, ix, k, i);
    }
  }

  /** Unlinking a ring member that is not the node itself. */
  lemma RemoveMember(m: Mem, m': Mem, smallmap: bv32, treemap: bv32, ix: Index, k: Key, j: int)
    requires IndexOk(m, smallmap, treemap, ix) && k in ix.trie && 0 < j < |ix.trie[k]|
    requires m' == UnlinkAt(m, ix.trie[k], j)
    ensures IndexOk(m', smallmap, treemap, DropMember(ix, k, j))
    ensures OnlyTreeWords(m, m', ix.sizes)
  {
    hide SizesOk, SmallOk, TrieOk, NodeOk, Bit, Owns, TreeIndex, Exp, Bin, Ring, Distinct, HeadLinks, Located;
    var ix' := DropMember(ix, k, j);
    var r := ix.trie[k];
    var xs := Members(r);
    LocatedOf(m, treemap, ix);
    TrieNode(m, treemap, ix, k);
    NodeFacts(m, ix, k);
    NodeHasParent(m, ix, k);
    TrieBits(m, treemap, ix);
    UnlinkedMembers(m, ix, k, j);
    DropMemberLocated(m, ix, k, j);
    assert ix'.trie[k][0] == r[0];
    forall i | 0 <= i < |ix'.trie[k]|
      ensures MemberOk(m', ix', k, i)
    {
      RemainingMember(m, ix, k, j, i);
    }
    assert HeadLinks(m', ix'.trie, k) by {
      assert SameTreeWords(m, m', RemoveAt(r, j)[0]);
      RelinkedHead(m, m', ix.trie, ix'.trie, k);
    }
    assert NodeOk(m', ix', k) by { NodeOf(m', ix', k); }
    hide UnlinkAt, MemberOk, TreeBinOk, Rewritten, OnlyAt, SameSmall;
    assert WritesAround(m, m', ix.trie, xs, k);
    RingOnly(m, m', treemap, ix, ix', ix.sizes, xs, k);
    hide Repointed, WritesAround;
    ChangeIndexAt(m, m', smallmap, treemap, treemap, ix, ix', ix.sizes, xs, k);
  }

  /** Unlinking a node whose ring has other members: the next one takes its place. */
  lemma RemoveHead(m: Mem, m': Mem, smallmap: bv32, treemap: bv32, ix: Index, k: Key)
    requires IndexOk(m, smallmap, treemap, ix) && k in ix.trie && |ix.trie[k]| >= 2
    requires HeadMoved(UnlinkAt(m, ix.trie[k], 0), m', ix.trie, k, ix.trie[k][1])
    ensures IndexOk(m', smallmap, treemap, DropMember(ix, k, 0))
    ensures OnlyTreeWords(m, m', ix.sizes)
  {
    hide SizesOk, SmallOk, TrieOk, NodeOk, Bit, Owns, TreeIndex, Exp, Bin, Ring, Distinct, HeadLinks, Located,
         HeadMoved;
    var ix' := DropMember(ix, k, 0);
    var r := ix.trie[k];
    var m1 := UnlinkAt(m, r, 0);
    var xs := Members(r);
    LocatedOf(m, treemap, ix);
    TrieNode(m, treemap, ix, k);
    NodeFacts(m, ix, k);
    NodeHasParent(m, ix, k);
    TrieBits(m, treemap, ix);
    UnlinkedMembers(m, ix, k, 0);
    DropMemberLocated(m, ix, k, 0);
    assert ix'.trie[k] == r[1..];
    assert r[1] in xs;
    assert Members(r[1..]) <= xs;
    forall i | 0 <= i < |r| - 1
      ensures MemberOk(m1, ix', k, i)
    {
      RemainingMember(m, ix, k, 0, i);
    }
    hide UnlinkAt, MemberOk, TreeBinOk, Rewritten, OnlyAt, SameSmall;
    TakesOver(m, m1, m', treemap, ix, ix', ix.sizes, xs, k);
    MovedPointers(m1, m', ix, ix', k);
    MovedAround(m, m1, m', ix.trie, xs, k, r[1]);
    hide Repointed, WritesAround;
    ChangeIndexAt(m, m', smallmap, treemap, treemap, ix, ix', ix.sizes, xs, k);
  }

  // ---------- a leaf goes ----------

  function DropNode(ix: Index, k: Key): Index
    requires k in ix.trie
  {
    ix.(sizes := ix.sizes - Members(ix.trie[k]), trie := ix.trie - {k}, loc := ix.loc - Members(ix.trie[k]))
  }

  ghost predicate Leaf(ix: Index, k: Key) {
    k in ix.trie && Kid(k, false) !in ix.trie && Kid(k, true) !in ix.trie
  }

  lemma DropNodeLocated(m: Mem, ix: Index, k: Key)
    requires Located(ix) && k in ix.trie && NodeOk(m, ix, k)
    ensures var ix' := DropNode(ix, k);
      Located(ix') && OnlyAt(ix, ix', k) && SameSmall(ix, ix') && Rewritten(ix, ix.sizes, {}, k)
  {
    hide NodeOk;
    var r := ix.trie[k];
    forall e | e in Members(r)
      ensures e in ix.loc && ix.loc[e] == k && e in ix.sizes && !IsSmall(ix.sizes[e])
    {
      var i :| 0 <= i < |r| && r[i] == e;
      MemberWords(m, ix, k, i);
    }
  }

  /** Clearing the slot of a leaf drops the leaf with its whole ring. */
  lemma RemoveLeaf(m: Mem, m': Mem, smallmap: bv32, treemap: bv32, treemap': bv32, ix: Index, k: Key)
    requires IndexOk(m, smallmap, treemap, ix) && Leaf(ix, k)
    requires SlotOf(ix.trie, k) in m && m' == m[SlotOf(ix.trie, k) := 0]
    requires forall b :: 0 <= b < 32 ==> (Bit(treemap', b) <==> k != Root(b) && Bit(treemap, b))
    ensures IndexOk(m', smallmap, treemap', DropNode(ix, k))
    ensures OnlyTreeWords(m, m', ix.sizes)
  {
    hide SizesOk, SmallOk, TrieOk, NodeOk, Bit, Owns, TreeIndex, Exp, Bin, Located;
    var ix' := DropNode(ix, k);
    LocatedOf(m, treemap, ix);
    TrieNode(m, treemap, ix, k);
    NodeFacts(m, ix, k);
    NodeHasParent(m, ix, k);
    DropNodeLocated(m, ix, k);
    assert WritesAround(m, m', ix.trie, {}, k);
    assert Repointed(m', ix, ix', k);
    hide Repointed, WritesAround, Rewritten, OnlyAt, SameSmall;
    ChangeIndexAt(m, m', smallmap, treemap, treemap', ix, ix', ix.sizes, {}, k);
  }

  // ---------- a leaf moves up into the place of a lone inner node ----------

  function LiftLeaf(ix: Index, leaf: Key, k: Key): Index
    requires k in ix.trie && leaf in ix.trie && ix.trie[k] != []
  {
    var x := ix.trie[k][0];
    ix.(sizes := ix.sizes - {x},
        trie := (ix.trie - {leaf})[k := ix.trie[leaf]],
        loc := map e | e in ix.loc && e != x :: if ix.loc[e] == leaf then k else ix.loc[e])
  }

  lemma LiftedApart(ix: Index, leaf: Key, k: Key)
    requires OneNodePerSize(ix) && k in ix.trie && leaf in ix.trie && ix.trie[k] != []
    ensures OneNodePerSize(LiftLeaf(ix, leaf, k))
  {
  }

  lemma LiftedLocated(m: Mem, ix: Index, leaf: Key, k: Key)
    requires Located(ix) && Leaf(ix, leaf) && leaf != k
    requires NodeOk(m, ix, leaf) && k in ix.trie && NodeOk(m, ix, k) && |ix.trie[k]| == 1
    ensures var ix1, ix' := DropNode(ix, leaf), LiftLeaf(ix, leaf, k);
      && Located(ix') && OnlyAt(ix1, ix', k) && SameSmall(ix1, ix')
      && Rewritten(ix1, ix.sizes, {ix.trie[k][0]} + Members(ix.trie[leaf]), k)
  {
    hide NodeOk, OneNodePerSize;
    var r, x := ix.trie[leaf], ix.trie[k][0];
    MemberWords(m, ix, k, 0);
    LiftedApart(ix, leaf, k);
    forall e | e in Members(r)
      ensures e in ix.loc && ix.loc[e] == leaf && e in ix.sizes && !IsSmall(ix.sizes[e])
    {
      var i :| 0 <= i < |r| && r[i] == e;
      MemberWords(m, ix, leaf, i);
    }
  }

  /** A member is in order at another position that owns its size and holds the same ring. */
  lemma MemberElsewhere(m: Mem, m1: Mem, ix: Index, ix': Index, q: Key, k: Key, i: int)
    requires q in ix.trie && k in ix'.trie && ix'.trie[k] == ix.trie[q] && 0 <= i < |ix.trie[q]|
    requires MemberOk(m, ix, q, i) && SameTreeWords(m, m1, ix.trie[q][i]) && Bin(k) == Bin(q)
    requires Owns(k, ix.sizes[ix.trie[q][i]])
    requires forall e :: e in {ix.trie[q][i], ix.trie[q][0]} ==>
      e in ix.sizes && e in ix'.sizes && ix'.sizes[e] == ix.sizes[e] && e in ix'.loc && ix'.loc[e] == k
    ensures MemberOk(m1, ix', k, i)
  {
    hide Owns, TreeIndex, Bin;
  }

  lemma MemberOwns(m: Mem, ix: Index, k: Key, i: int)
    requires k in ix.trie && 0 <= i < |ix.trie[k]| && MemberOk(m, ix, k, i)
    ensures Owns(k, ix.sizes[ix.trie[k][i]])
  {
  }

  /** Seen from the higher position, the members of the detached leaf's ring are in order. */
  lemma LiftedMember(m: Mem, ix: Index, leaf: Key, k: Key, i: int)
    requires SizesOk(m, ix.sizes) && Leaf(ix, leaf) && leaf != k && Under(k, leaf)
    requires leaf.Kid? && leaf.up in ix.trie && NodeOk(m, ix, leaf.up)
    requires NodeOk(m, ix, leaf) && k in ix.trie && NodeOk(m, ix, k) && |ix.trie[k]| == 1
    requires 0 <= i < |ix.trie[leaf]|
    ensures MemberOk(m[SlotOf(ix.trie, leaf) := 0], LiftLeaf(ix, leaf, k), k, i)
    ensures SameRingWords(m, m[SlotOf(ix.trie, leaf) := 0], ix.trie[leaf][i])
  {
    hide NodeOk, SizesOk, Owns, TreeIndex, Bin, Exp, Lo, Hi, MemberOk, SameTreeWords, SameRingWords, SlotOf, Under;
    var e, h, m1 := ix.trie[leaf][i], ix.trie[leaf][0], m[SlotOf(ix.trie, leaf) := 0];
    var ix' := LiftLeaf(ix, leaf, k);
    MemberWords(m, ix, k, 0);
    MemberWords(m, ix, leaf, i);
    MemberWords(m, ix, leaf, 0);
    NodeFacts(m, ix, leaf);
    UnderInside(k, leaf);
    LeafWordsStay(m, ix, leaf, i);
    NodeMember(m, ix, leaf, i);
    assert Owns(leaf, ix.sizes[e]) by { MemberOwns(m, ix, leaf, i); }
    OwnsAbove(k, leaf, ix.sizes[e]);
    assert e in ix'.loc && ix'.loc[e] == k && h in ix'.loc && ix'.loc[h] == k;
    MemberElsewhere(m, m1, ix, ix', leaf, k, i);
  }

  lemma LeafWordsStay(m: Mem, ix: Index, leaf: Key, i: int)
    requires SizesOk(m, ix.sizes) && leaf in ix.trie && NodeOk(m, ix, leaf)
    requires leaf.Kid? && leaf.up in ix.trie && NodeOk(m, ix, leaf.up)
    requires 0 <= i < |ix.trie[leaf]|
    ensures var e, m1 := ix.trie[leaf][i], m[SlotOf(ix.trie, leaf) := 0];
      SameTreeWords(m, m1, e) && SameRingWords(m, m1, e)
  {
    hide NodeOk, SizesOk;
    MemberWords(m, ix, leaf, i);
    FarFromNode(m, ix, ix.sizes, leaf, i, leaf.up);
  }

  lemma OwnsAbove(k: Key, leaf: Key, size: int)
    requires Owns(leaf, size) && Lo(k) <= Lo(leaf) && Hi(leaf) <= Hi(k)
    ensures Owns(k, size)
  {
  }

  lemma WritesCompose(m: Mem, m1: Mem, m2: Mem, sizes: map<int, int>)
    requires OnlyTreeWords(m, m1, sizes) && OnlyTreeWords(m1, m2, sizes)
    ensures OnlyTreeWords(m, m2, sizes)
  {
  }

  /** A lone inner node is replaced by a leaf below it, which is first cut off from its own slot. */
  lemma RemoveInner(m: Mem, m': Mem, smallmap: bv32, treemap: bv32, ix: Index, leaf: Key, k: Key)
    requires IndexOk(m, smallmap, treemap, ix) && Leaf(ix, leaf) && leaf != k && Under(k, leaf)
    requires k in ix.trie && |ix.trie[k]| == 1 && ix.trie[leaf] != []
    requires HeadMoved(m[SlotOf(ix.trie, leaf) := 0], m', ix.trie - {leaf}, k, ix.trie[leaf][0])
    ensures IndexOk(m', smallmap, treemap, LiftLeaf(ix, leaf, k))
    ensures OnlyTreeWords(m, m', ix.sizes)
  {
    hide SizesOk, SmallOk, TrieOk, NodeOk, Bit, Owns, TreeIndex, Exp, Bin, Located, HeadMoved, Ring, Distinct;
    var ix1, ix' := DropNode(ix, leaf), LiftLeaf(ix, leaf, k);
    var m1 := m[SlotOf(ix.trie, leaf) := 0];
    var r := ix.trie[leaf];
    var xs := {ix.trie[k][0]} + Members(r);
    LocatedOf(m, treemap, ix);
    TrieNode(m, treemap, ix, k);
    TrieNode(m, treemap, ix, leaf);
    NodeFacts(m, ix, k);
    NodeRing(m, ix, leaf);
    NodeHasParent(m, ix, leaf);
    NodeHasParent(m, ix, k);
    TrieNode(m, treemap, ix, leaf.up);
    SlotHolds(m, treemap, ix, leaf);
    RemoveLeaf(m, m1, smallmap, treemap, treemap, ix, leaf);
    TreeWordsKeepSizes(m, m1, ix.sizes);
    LiftedLocated(m, ix, leaf, k);
    forall i | 0 <= i < |r|
      ensures MemberOk(m1, ix', k, i) && SameRingWords(m, m1, r[i])
    {
      LiftedMember(m, ix, leaf, k, i);
    }
    RingFrame(m, m1, r);
    TrieBits(m1, treemap, ix1);
    assert k.Kid? ==> k.up != leaf;
    assert r[0] in xs && Members(r) <= xs;
    hide MemberOk, TreeBinOk, Rewritten, OnlyAt, SameSmall, HeadLinks, SameRingWords, OnlyTreeWords;
    TakesOver(m1, m1, m', treemap, ix1, ix', ix.sizes, xs, k);
    MovedPointers(m1, m', ix1, ix', k);
    MovedAround(m1, m1, m', ix1.trie, xs, k, r[0]);
    hide Repointed, WritesAround;
    ChangeIndexAt(m1, m', smallmap, treemap, treemap, ix1, ix', ix.sizes, xs, k);
    WritesCompose(m, m1, m', ix.sizes);
  }
}
