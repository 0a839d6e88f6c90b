/**
 Why following one path through a trie, and then the leftmost path of one subtree, finds the best fit over all
 tree bins.
 */
module BestFit {
  import opened Words
  import opened Bits
  import opened Memory
  import opened SizeClasses
  import opened FreeIndex
  import opened Tries
  import opened TrieOps
  import opened IndexReads

  /** The size of the chunks at a position. */
  function SizeAt(ix: Index, k: Key): int {
    if NodeAt(ix.trie, k) in ix.sizes then ix.sizes[NodeAt(ix.trie, k)] else 0
  }

  function SizeOf(ix: Index, c: int): int {
    if c in ix.sizes then ix.sizes[c] else 0
  }

  /** What the search needs to know about the index: every large chunk is on the path its size spells. */
  ghost predicate Shape(ix: Index) {
    && (forall k :: k in ix.trie ==>
          && NodeAt(ix.trie, k) != 0 && NodeAt(ix.trie, k) in ix.loc && ix.loc[NodeAt(ix.trie, k)] == k
          && (k.Kid? ==> k.up in ix.trie))
    && (forall c :: c in ix.loc ==> c in ix.sizes && ChunkShape(ix, c, ix.loc[c]))
  }

  ghost predicate ChunkShape(ix: Index, c: int, k: Key)
    requires c in ix.sizes
  {
    && k in ix.trie && 0 <= Bin(k) < 32 && Exp(k) >= 0
    && MIN_LARGE_SIZE <= ix.sizes[c] < WORD_LIMIT
    && Owns(k, ix.sizes[c]) && TreeIndex(ix.sizes[c]) == Bin(k) && ix.sizes[c] == SizeAt(ix, k)
  }

  lemma ShapeOf(m: Mem, smallmap: bv32, treemap: bv32, ix: Index)
    requires IndexOk(m, smallmap, treemap, ix)
    ensures Shape(ix)
  {
    hide IndexOk, TrieOk, NodeOk, SizesOk, Owns, TreeIndex, Bin, Exp;
    TrieOf(m, smallmap, treemap, ix);
    LocatedOf(m, treemap, ix);
    forall k | k in ix.trie
      ensures NodeAt(ix.trie, k) != 0 && NodeAt(ix.trie, k) in ix.loc && ix.loc[NodeAt(ix.trie, k)] == k
      ensures k.Kid? ==> k.up in ix.trie
    {
      ReadNode(m, smallmap, treemap, ix, k);
    }
    forall c | c in ix.loc
      ensures c in ix.sizes && ChunkShape(ix, c, ix.loc[c])
    {
      var k := ix.loc[c];
      TrieNode(m, treemap, ix, k);
      var i :| 0 <= i < |ix.trie[k]| && ix.trie[k][i] == c;
      NodeMember(m, ix, k, i);
      NodeFacts(m, ix, k);
      ReadChunk(m, ix.sizes, c);
    }
  }

  lemma PositionFacts(ix: Index, k: Key)
    requires Shape(ix) && k in ix.trie
    ensures NodeAt(ix.trie, k) != 0 && NodeAt(ix.trie, k) in ix.loc && ix.loc[NodeAt(ix.trie, k)] == k
    ensures NodeAt(ix.trie, k) in ix.sizes && ChunkShape(ix, NodeAt(ix.trie, k), k)
    ensures k.Kid? ==> k.up in ix.trie
  {
  }

  /** Positions above an occupied one are occupied. */
  lemma {:induction false} OccupiedAbove(ix: Index, a: Key, k: Key)
    requires Shape(ix) && k in ix.trie && Under(a, k)
    ensures a in ix.trie
    decreases k
  {
    if a != k {
      PositionFacts(ix, k);
      hide Shape;
      OccupiedAbove(ix, a, k.up);
    }
  }

  /** A chunk whose size a position owns is below that position, or above it on the same path. */
  lemma OnOnePath(ix: Index, a: Key, c: int)
    requires Shape(ix) && c in ix.loc && Exp(a) >= 0 && Bin(a) == Bin(ix.loc[c]) && Owns(a, SizeOf(ix, c))
    ensures Under(a, ix.loc[c]) || Under(ix.loc[c], a)
  {
    hide Owns, Exp, Bin, TreeIndex;
    assert ChunkShape(ix, c, ix.loc[c]);
    Nested(a, ix.loc[c], SizeOf(ix, c));
  }

  // ---------- the candidate ----------

  /** `v` is null, or a large chunk that fits with `rsize` to spare. */
  ghost predicate Fit(ix: Index, size: int, v: int, rsize: int) {
    && (v == 0 ==> rsize == WORD_LIMIT - size)
    && (v != 0 ==> v in ix.loc && v in ix.sizes && ix.sizes[v] >= size && rsize == ix.sizes[v] - size)
  }

  ghost predicate Beats(ix: Index, v: int, bytes: int) {
    v != 0 && v in ix.sizes && ix.sizes[v] <= bytes
  }

  /** The comparison both loops make with the node they look at. */
  function Closer(csize: int, size: int, rsize: int): bool {
    csize >= size && csize - size < rsize
  }

  lemma Improve(ix: Index, size: int, v: int, rsize: int, t: int)
    requires Fit(ix, size, v, rsize) && t != 0 && t in ix.loc && t in ix.sizes && 0 <= ix.sizes[t] < WORD_LIMIT
    ensures var v' := if Closer(ix.sizes[t], size, rsize) then t else v;
      var rsize' := if Closer(ix.sizes[t], size, rsize) then ix.sizes[t] - size else rsize;
      && Fit(ix, size, v', rsize')
      && (ix.sizes[t] >= size ==> Beats(ix, v', ix.sizes[t]))
      && forall b :: Beats(ix, v, b) ==> Beats(ix, v', b)
  {
  }

  // ---------- first loop: down the path of the requested size ----------

  /** Every fitting chunk above `k` on its path has been looked at. */
  ghost predicate AboveSeen(ix: Index, size: int, v: int, k: Key) {
    forall a :: a in ix.trie && Under(a, k) && a != k && SizeAt(ix, a) >= size ==> Beats(ix, v, SizeAt(ix, a))
  }

  /**
   `rk` is the deepest right kid left aside so far, and every chunk of the bin from `bound` on that was not looked
   at is at least as large as its interval's start.
   */
  ghost predicate RightAside(ix: Index, idx: int, v: int, bound: int, rst: int, rk: Key) {
    forall c :: c in ix.loc && Bin(ix.loc[c]) == idx && SizeOf(ix, c) >= bound ==>
      Beats(ix, v, SizeOf(ix, c)) || (rst != 0 && SizeOf(ix, c) >= Lo(rk))
  }

  ghost predicate Aside(ix: Index, size: int, k: Key, rst: int, rk: Key) {
    rst != 0 ==>
      && rk.Kid? && rk in ix.trie && rst == NodeAt(ix.trie, rk)
      && Bin(rk) == Bin(k) && Under(rk.up, k) && rk.up != k
      && size < Lo(rk) && Hi(k) <= Lo(rk)
  }

  /** A chunk in the interval of a missing position was looked at on the way there. */
  lemma InMissing(ix: Index, size: int, v: int, a: Key, c: int)
    requires Shape(ix) && c in ix.loc && a !in ix.trie && Exp(a) >= 0 && Bin(a) == Bin(ix.loc[c])
    requires Owns(a, SizeOf(ix, c)) && SizeOf(ix, c) >= size && AboveSeen(ix, size, v, a)
    ensures Beats(ix, v, SizeOf(ix, c))
  {
    hide Owns, Exp, Bin, TreeIndex, Beats;
    assert ChunkShape(ix, c, ix.loc[c]);
    OnOnePath(ix, a, c);
    if Under(a, ix.loc[c]) {
      OccupiedAbove(ix, a, ix.loc[c]);
    }
  }

  lemma AboveKid(ix: Index, size: int, v: int, k: Key, right: bool)
    requires k in ix.trie && AboveSeen(ix, size, v, k)
    requires SizeAt(ix, k) >= size ==> Beats(ix, v, SizeAt(ix, k))
    ensures AboveSeen(ix, size, v, Kid(k, right))
  {
    hide Beats, SizeAt;
  }

  /** One step down: the right kid is left aside exactly when the path turns left and it exists. */
  lemma StepDown(ix: Index, size: int, v: int, k: Key, rst: int, rk: Key)
    requires Shape(ix) && k in ix.trie && Exp(k) >= 1 && Owns(k, size)
    requires AboveSeen(ix, size, v, k) && (SizeAt(ix, k) >= size ==> Beats(ix, v, SizeAt(ix, k)))
    requires Aside(ix, size, k, rst, rk) && RightAside(ix, Bin(k), v, Hi(k), rst, rk)
    ensures var below := Towards(k, size);
      var aside := !below.right && Kid(k, true) in ix.trie;
      var rst' := if aside then NodeAt(ix.trie, Kid(k, true)) else rst;
      var rk' := if aside then Kid(k, true) else rk;
      && AboveSeen(ix, size, v, below)
      && Aside(ix, size, below, rst', rk')
      && RightAside(ix, Bin(k), v, Hi(below), rst', rk')
  {
    hide Shape, Lo, Hi, Exp, Bin, TreeIndex, Beats, SizeAt, Owns;
    var below := Towards(k, size);
    TowardsOwns(k, size);
    KidsHalve(k);
    AboveKid(ix, size, v, k, below.right);
    AboveKid(ix, size, v, k, true);
    var aside := !below.right && Kid(k, true) in ix.trie;
    var rst' := if aside then NodeAt(ix.trie, Kid(k, true)) else rst;
    var rk' := if aside then Kid(k, true) else rk;
    KidFacts(k, size);
    if aside {
      PositionFacts(ix, Kid(k, true));
    } else if rst != 0 {
      UnderAntisym(rk.up, k, below);
    }
    hide Under;
    forall c | c in ix.loc && Bin(ix.loc[c]) == Bin(k) && SizeOf(ix, c) >= Hi(below)
      ensures Beats(ix, v, SizeOf(ix, c)) || (rst' != 0 && SizeOf(ix, c) >= Lo(rk'))
    {
      if !below.right && SizeOf(ix, c) < Hi(k) && Kid(k, true) !in ix.trie {
        OwnsBetween(Kid(k, true), SizeOf(ix, c));
        InMissing(ix, size, v, Kid(k, true), c);
      }
    }
  }

  lemma KidFacts(k: Key, size: int)
    requires Exp(k) >= 1 && Owns(k, size)
    ensures Exp(Kid(k, true)) >= 0 && Exp(Kid(k, false)) >= 0
    ensures Bin(Kid(k, true)) == Bin(k) && Bin(Kid(k, false)) == Bin(k)
    ensures Under(k, Kid(k, true)) && Under(k, Kid(k, false)) && Under(k, k)
    ensures !Towards(k, size).right ==> size < Lo(Kid(k, true)) && Hi(Kid(k, false)) == Lo(Kid(k, true))
    ensures Hi(Kid(k, true)) == Hi(k)
    ensures Hi(Kid(k, false)) <= Hi(k)
    ensures Kid(k, true) != k && Kid(k, false) != k
  {
    hide Pow2;
    KidsHalve(k);
  }

  lemma OwnsBetween(k: Key, size: int)
    requires Lo(k) <= size < Hi(k)
    ensures Owns(k, size)
  {
  }

  /** Falling off the trie: what is left to look at is the subtree set aside. */
  lemma FellOff(ix: Index, size: int, v: int, k: Key, rst: int, rk: Key)
    requires Shape(ix) && k !in ix.trie && Exp(k) >= 0 && Owns(k, size)
    requires AboveSeen(ix, size, v, k)
    requires Aside(ix, size, k, rst, rk) && RightAside(ix, Bin(k), v, Hi(k), rst, rk)
    ensures RightAside(ix, Bin(k), v, size, rst, rk)
    ensures rst != 0 ==> AboveSeen(ix, size, v, rk)
  {
    hide Lo, Hi, Exp, Bin, TreeIndex, Beats, SizeAt, Shape;
    forall c | c in ix.loc && Bin(ix.loc[c]) == Bin(k) && SizeOf(ix, c) >= size
      ensures Beats(ix, v, SizeOf(ix, c)) || (rst != 0 && SizeOf(ix, c) >= Lo(rk))
    {
      if SizeOf(ix, c) < Hi(k) {
        InMissing(ix, size, v, k, c);
      }
    }
    if rst != 0 {
      forall a | a in ix.trie && Under(a, rk) && a != rk && SizeAt(ix, a) >= size
        ensures Beats(ix, v, SizeAt(ix, a))
      {
        UnderTrans(a, rk.up, k);
        UnderAntisym(a, rk.up, k);
      }
    }
  }

  lemma UnderAntisym(a: Key, b: Key, k: Key)
    requires Under(a, b) && Under(b, k) && b != k
    ensures a != k
  {
    if a == k {
      UnderDepth(k, b);
      UnderDepth(b, k);
    }
  }

  function Depth(k: Key): nat {
    match k
    case Root(_) => 0
    case Kid(up, _) => 1 + Depth(up)
  }

  lemma {:induction false} UnderDepth(a: Key, k: Key)
    requires Under(a, k)
    ensures Depth(a) <= Depth(k) && (a != k ==> Depth(a) < Depth(k))
    decreases k
  {
    if a != k {
      UnderDepth(a, k.up);
    }
  }

  /** No node strictly above `k` has this size. */
  ghost predicate NoneAbove(ix: Index, size: int, k: Key) {
    forall a :: a in ix.trie && Under(a, k) && a != k ==> SizeAt(ix, a) != size
  }

  lemma NothingAboveRoot(ix: Index, size: int, b: int)
    ensures NoneAbove(ix, size, Root(b))
  {
  }

  lemma NoneAboveKid(ix: Index, size: int, k: Key, right: bool)
    requires NoneAbove(ix, size, k) && SizeAt(ix, k) != size
    ensures NoneAbove(ix, size, Kid(k, right))
  {
    hide SizeAt;
  }

  /** Where the path of a size leaves its trie without meeting the size, no chunk has that size. */
  lemma PathEnds(ix: Index, size: int, k: Key)
    requires Shape(ix) && k !in ix.trie && Exp(k) >= 0 && Owns(k, size) && 0 <= size && Bin(k) == TreeIndex(size)
    requires NoneAbove(ix, size, k)
    ensures NewSize(ix, size)
  {
    hide Owns, Exp, Bin, TreeIndex, SizeAt;
    forall c | c in ix.loc && c in ix.sizes
      ensures ix.sizes[c] != size
    {
      assert ChunkShape(ix, c, ix.loc[c]);
      if ix.sizes[c] == size {
        OnOnePath(ix, k, c);
        if Under(k, ix.loc[c]) {
          OccupiedAbove(ix, k, ix.loc[c]);
        }
      }
    }
  }

  // ---------- second loop: the leftmost path ----------

  /** Of the chunks below `top`, those not beaten yet are below `k`, or larger than everything below `k`. */
  ghost predicate LeftToSee(ix: Index, v: int, top: Key, k: Key) {
    forall c :: c in ix.loc && Under(top, ix.loc[c]) ==>
      Beats(ix, v, SizeOf(ix, c)) || Under(k, ix.loc[c]) || SizeOf(ix, c) >= Hi(k)
  }

  lemma StepLeft(ix: Index, v: int, top: Key, k: Key, right: bool)
    requires Shape(ix) && k in ix.trie && LeftToSee(ix, v, top, k) && Beats(ix, v, SizeAt(ix, k))
    requires Kid(k, right) in ix.trie && (right ==> Kid(k, false) !in ix.trie)
    ensures LeftToSee(ix, v, top, Kid(k, right))
  {
    hide Shape, TreeIndex, Owns, Bin, SizeAt;
    PositionFacts(ix, Kid(k, right));
    KidsHalve(k);
    assert Exp(k) >= 1;
    assert Hi(Kid(k, right)) <= Hi(k);
    forall c | c in ix.loc && Under(top, ix.loc[c])
      ensures Beats(ix, v, SizeOf(ix, c)) || Under(Kid(k, right), ix.loc[c]) || SizeOf(ix, c) >= Hi(Kid(k, right))
    {
      ChunkFacts(ix, c);
      if Under(k, ix.loc[c]) && ix.loc[c] != k {
        var side := UnderKid(k, ix.loc[c]);
        OccupiedAbove(ix, Kid(k, side), ix.loc[c]);
        UnderInside(Kid(k, side), ix.loc[c]);
        OwnsMeans(ix.loc[c], SizeOf(ix, c));
      }
    }
  }

  lemma ChunkFacts(ix: Index, c: int)
    requires Shape(ix) && c in ix.loc
    ensures c in ix.sizes && ChunkShape(ix, c, ix.loc[c])
  {
  }

  lemma OwnsMeans(k: Key, size: int)
    requires Owns(k, size)
    ensures Lo(k) <= size < Hi(k)
  {
  }

  lemma LeftDone(ix: Index, v: int, top: Key, k: Key)
    requires Shape(ix) && k in ix.trie && LeftToSee(ix, v, top, k) && Beats(ix, v, SizeAt(ix, k))
    requires Kid(k, false) !in ix.trie && Kid(k, true) !in ix.trie
    ensures forall c :: c in ix.loc && Under(top, ix.loc[c]) ==> Beats(ix, v, SizeOf(ix, c))
  {
    hide Shape, TreeIndex, Owns, Bin, SizeAt;
    PositionFacts(ix, k);
    OwnsMeans(k, SizeAt(ix, k));
    forall c | c in ix.loc && Under(top, ix.loc[c])
      ensures Beats(ix, v, SizeOf(ix, c))
    {
      ChunkFacts(ix, c);
      if Under(k, ix.loc[c]) && ix.loc[c] != k {
        var side := UnderKid(k, ix.loc[c]);
        OccupiedAbove(ix, Kid(k, side), ix.loc[c]);
      }
    }
  }

  // ---------- putting the loops together ----------

  /** `v` is the best fit: null when nothing fits, and otherwise no fitting chunk is smaller. */
  ghost predicate BestFitting(ix: Index, size: int, v: int) {
    && (v == 0 ==> forall c :: c in ix.loc ==> c in ix.sizes && ix.sizes[c] < size)
    && (v != 0 ==>
          && v in ix.loc && v in ix.sizes && ix.sizes[v] >= size
          && forall c :: c in ix.loc ==> c in ix.sizes && (ix.sizes[c] >= size ==> ix.sizes[v] <= ix.sizes[c]))
  }

  /** The designated victim fits at least as tightly as any chunk in a tree bin. */
  ghost predicate DvFitsBest(ix: Index, size: int, dvsize: int) {
    && dvsize >= size
    && forall c :: c in ix.loc ==> c in ix.sizes && (ix.sizes[c] >= size ==> dvsize <= ix.sizes[c])
  }

  /** The least chunk below the subtree set aside beats everything the first loop left over in the bin. */
  lemma AsideDone(ix: Index, size: int, v: int, v': int, rk: Key)
    requires Shape(ix) && rk in ix.trie
    requires AboveSeen(ix, size, v, rk) && RightAside(ix, Bin(rk), v, size, NodeAt(ix.trie, rk), rk)
    requires forall b :: Beats(ix, v, b) ==> Beats(ix, v', b)
    requires forall c :: c in ix.loc && Under(rk, ix.loc[c]) ==> Beats(ix, v', SizeOf(ix, c))
    ensures forall c :: c in ix.loc && Bin(ix.loc[c]) == Bin(rk) && SizeOf(ix, c) >= size ==>
      Beats(ix, v', SizeOf(ix, c))
  {
    hide Shape, TreeIndex, Owns, Bin, Lo, Hi, Exp;
    PositionFacts(ix, rk);
    OwnsMeans(rk, SizeAt(ix, rk));
    assert Beats(ix, v', SizeAt(ix, rk)) by {
      assert Under(rk, ix.loc[NodeAt(ix.trie, rk)]);
    }
    forall c | c in ix.loc && Bin(ix.loc[c]) == Bin(rk) && SizeOf(ix, c) >= size
      ensures Beats(ix, v', SizeOf(ix, c))
    {
      ChunkFacts(ix, c);
      if !Beats(ix, v, SizeOf(ix, c)) && SizeOf(ix, c) < Hi(rk) {
        OwnsBetween(rk, SizeOf(ix, c));
        OnOnePath(ix, rk, c);
      }
    }
  }

  /** A fitting chunk of the lowest bin that has one is smaller than the chunks of later bins. */
  lemma LaterBinsAreLarger(ix: Index, size: int, v: int, idx: int)
    requires Shape(ix) && v != 0 && v in ix.loc && v in ix.sizes && ix.sizes[v] >= size
    requires Bin(ix.loc[v]) == idx
    requires forall c :: c in ix.loc && Bin(ix.loc[c]) < idx ==> SizeOf(ix, c) < size
    requires forall c :: c in ix.loc && Bin(ix.loc[c]) == idx && SizeOf(ix, c) >= size ==> Beats(ix, v, SizeOf(ix, c))
    ensures BestFitting(ix, size, v)
  {
    hide Shape, TreeIndex, Owns, Bin, Lo, Hi, Exp, SizeAt;
    ChunkFacts(ix, v);
    forall c | c in ix.loc
      ensures c in ix.sizes && (ix.sizes[c] >= size ==> ix.sizes[v] <= ix.sizes[c])
    {
      ChunkFacts(ix, c);
      if SizeOf(ix, c) < ix.sizes[v] {
        TreeIndexMonotone(SizeOf(ix, c), ix.sizes[v]);
      }
    }
  }

  /** Lower bins than the request's hold only chunks that are too small. */
  lemma LowerBinsAreSmaller(ix: Index, size: int)
    requires Shape(ix) && MIN_LARGE_SIZE <= size
    ensures forall c :: c in ix.loc && Bin(ix.loc[c]) < TreeIndex(size) ==> SizeOf(ix, c) < size
    ensures forall c :: c in ix.loc && Bin(ix.loc[c]) > TreeIndex(size) ==> SizeOf(ix, c) > size
  {
    hide Shape, TreeIndex, Owns, Bin, Lo, Hi, Exp, SizeAt;
    forall c | c in ix.loc && Bin(ix.loc[c]) < TreeIndex(size)
      ensures SizeOf(ix, c) < size
    {
      ChunkFacts(ix, c);
      if size <= SizeOf(ix, c) {
        TreeIndexMonotone(size, SizeOf(ix, c));
      }
    }
    forall c | c in ix.loc && Bin(ix.loc[c]) > TreeIndex(size)
      ensures SizeOf(ix, c) > size
    {
      ChunkFacts(ix, c);
      if SizeOf(ix, c) <= size {
        TreeIndexMonotone(SizeOf(ix, c), size);
      }
    }
  }

  lemma RootCoversBin(ix: Index, b: int, c: int)
    requires Shape(ix) && c in ix.loc && Bin(ix.loc[c]) == b
    ensures Under(Root(b), ix.loc[c]) && Root(b) in ix.trie
  {
    ChunkFacts(ix, c);
    hide Shape, ChunkShape;
    UnderRoot(ix.loc[c]);
    OccupiedAbove(ix, Root(b), ix.loc[c]);
  }

  // ---------- small steps of the two loops ----------

  lemma NoFit(ix: Index, size: int)
    ensures Fit(ix, size, 0, WORD_LIMIT - size)
  {
  }

  lemma SearchStarts(ix: Index, size: int, idx: int)
    requires Shape(ix) && MIN_LARGE_SIZE <= size < WORD_LIMIT && idx == TreeIndex(size)
    requires Owns(Root(idx), size) && Bin(Root(idx)) == idx
    ensures AboveSeen(ix, size, 0, Root(idx)) && Aside(ix, size, Root(idx), 0, Root(idx))
    ensures RightAside(ix, idx, 0, Hi(Root(idx)), 0, Root(idx))
    ensures Root(idx) !in ix.trie ==> RightAside(ix, idx, 0, size, 0, Root(idx))
  {
    hide Shape, TreeIndex, Lo, Hi, Exp, SizeAt, Bin;
    forall c | c in ix.loc && Bin(ix.loc[c]) == idx
      ensures SizeOf(ix, c) < Hi(Root(idx)) && Root(idx) in ix.trie
    {
      ChunkFacts(ix, c);
      OwnsMeans(ix.loc[c], SizeOf(ix, c));
      RootCoversBin(ix, idx, c);
      UnderInside(Root(idx), ix.loc[c]);
    }
  }

  /** A better candidate forgets nothing that was seen, and has seen the node at `k`. */
  lemma SeenMore(ix: Index, size: int, v: int, v': int, k: Key, rst: int, rk: Key, idx: int)
    requires AboveSeen(ix, size, v, k) && RightAside(ix, idx, v, Hi(k), rst, rk)
    requires forall b :: Beats(ix, v, b) ==> Beats(ix, v', b)
    ensures AboveSeen(ix, size, v', k) && RightAside(ix, idx, v', Hi(k), rst, rk)
  {
    hide Beats, SizeAt, Hi, Bin, Lo;
  }

  lemma NotExact(ix: Index, size: int, v: int, rsize: int, t: int)
    requires Fit(ix, size, v, rsize) && rsize > 0
    requires t in ix.sizes && (ix.sizes[t] >= size ==> Beats(ix, v, ix.sizes[t]))
    ensures ix.sizes[t] != size
  {
  }

  lemma KidsDiffer(m: Mem, smallmap: bv32, treemap: bv32, ix: Index, k: Key)
    requires IndexOk(m, smallmap, treemap, ix) && k in ix.trie
    ensures Kid(k, true) in ix.trie ==> NodeAt(ix.trie, Kid(k, true)) != NodeAt(ix.trie, Kid(k, false))
  {
    hide IndexOk;
    if Kid(k, true) in ix.trie {
      ReadNode(m, smallmap, treemap, ix, Kid(k, true));
      if Kid(k, false) in ix.trie {
        ReadNode(m, smallmap, treemap, ix, Kid(k, false));
      }
    }
  }

  lemma AsideFacts(ix: Index, size: int, k: Key, rst: int, rk: Key)
    requires Aside(ix, size, k, rst, rk)
    ensures rst != 0 ==> rk in ix.trie && rst == NodeAt(ix.trie, rk) && Bin(rk) == Bin(k) && size < Lo(rk)
  {
  }

  lemma LeftStarts(ix: Index, v: int, top: Key)
    ensures LeftToSee(ix, v, top, top)
  {
  }

  lemma LeftSeenMore(ix: Index, v: int, v': int, top: Key, k: Key)
    requires forall b :: Beats(ix, v, b) ==> Beats(ix, v', b)
    ensures LeftToSee(ix, v, top, k) ==> LeftToSee(ix, v', top, k)
  {
    hide Beats, Hi;
  }

  // ---------- conclusions ----------

  /** An exact fit is a best fit. */
  lemma ExactIsBest(ix: Index, size: int, v: int)
    requires Shape(ix) && Fit(ix, size, v, 0) && size < WORD_LIMIT && v != 0
    ensures BestFitting(ix, size, v)
  {
    hide ChunkShape;
  }

  /** The best chunk lies in the first bin that has a fitting one. */
  lemma BestInBin(ix: Index, size: int, v: int, rsize: int, idx: int, w: int)
    requires Shape(ix) && Fit(ix, size, v, rsize)
    requires forall c :: c in ix.loc && Bin(ix.loc[c]) < idx ==> SizeOf(ix, c) < size
    requires w in ix.loc && Bin(ix.loc[w]) == idx && Beats(ix, v, SizeOf(ix, w))
    requires forall c :: c in ix.loc && Bin(ix.loc[c]) == idx && SizeOf(ix, c) >= size ==> Beats(ix, v, SizeOf(ix, c))
    ensures v != 0 && BestFitting(ix, size, v)
  {
    hide Shape, TreeIndex, Bin, Owns;
    ChunkFacts(ix, v);
    ChunkFacts(ix, w);
    TreeIndexMonotone(ix.sizes[v], ix.sizes[w]);
    LaterBinsAreLarger(ix, size, v, idx);
  }

  /** Nothing fits in the request's own bin when the first loop found nothing and set nothing aside. */
  lemma OwnBinEmpty(ix: Index, size: int, idx: int, top: Key)
    requires RightAside(ix, idx, 0, size, 0, top)
    ensures forall c :: c in ix.loc && Bin(ix.loc[c]) == idx ==> SizeOf(ix, c) < size
  {
    hide Bin, Lo;
  }

  lemma BinBest(ix: Index, size: int, idx: int, v: int, top: Key)
    requires RightAside(ix, idx, v, size, 0, top)
    ensures forall c :: c in ix.loc && Bin(ix.loc[c]) == idx && SizeOf(ix, c) >= size ==> Beats(ix, v, SizeOf(ix, c))
  {
    hide Bin, Lo;
  }

  /** Bins without a mark have no chunks. */
  lemma UnmarkedBinsEmpty(m: Mem, smallmap: bv32, treemap: bv32, ix: Index, size: int, i: int)
    requires IndexOk(m, smallmap, treemap, ix) && MIN_LARGE_SIZE <= size
    requires 0 <= TreeIndex(size) < i <= 32
    requires forall j :: TreeIndex(size) < j < i ==> 0 <= j < 32 && !Bit(treemap, j)
    requires forall c :: c in ix.loc && Bin(ix.loc[c]) == TreeIndex(size) ==> SizeOf(ix, c) < size
    ensures forall c :: c in ix.loc && Bin(ix.loc[c]) < i ==> SizeOf(ix, c) < size
  {
    hide IndexOk, Bit, TreeIndex, Bin, Shape, Owns;
    ShapeOf(m, smallmap, treemap, ix);
    LowerBinsAreSmaller(ix, size);
    forall c | c in ix.loc && Bin(ix.loc[c]) < i
      ensures SizeOf(ix, c) < size
    {
      var b := Bin(ix.loc[c]);
      if TreeIndex(size) < b {
        RootCoversBin(ix, b, c);
        ReadTreeBin(m, smallmap, treemap, ix, b);
      }
    }
  }

  lemma NothingFits(ix: Index, size: int)
    requires Shape(ix) && forall c :: c in ix.loc && Bin(ix.loc[c]) < 32 ==> SizeOf(ix, c) < size
    ensures BestFitting(ix, size, 0)
  {
    hide Owns, TreeIndex;
    forall c | c in ix.loc
      ensures c in ix.sizes && ix.sizes[c] < size
    {
      assert ChunkShape(ix, c, ix.loc[c]);
    }
  }

  lemma BelowRootFits(ix: Index, size: int, i: int)
    requires Shape(ix) && MIN_LARGE_SIZE <= size && TreeIndex(size) < i
    ensures forall c :: c in ix.loc && Under(Root(i), ix.loc[c]) ==> SizeOf(ix, c) >= size && Bin(ix.loc[c]) == i
  {
    hide TreeIndex, Shape, Owns;
    LowerBinsAreSmaller(ix, size);
    forall c | c in ix.loc && Under(Root(i), ix.loc[c])
      ensures SizeOf(ix, c) >= size && Bin(ix.loc[c]) == i
    {
      ChunkFacts(ix, c);
      UnderInside(Root(i), ix.loc[c]);
    }
  }

  lemma BelowAsideFits(ix: Index, size: int, top: Key)
    requires Shape(ix) && size < Lo(top)
    ensures forall c :: c in ix.loc && Under(top, ix.loc[c]) ==> SizeOf(ix, c) >= size
  {
    hide TreeIndex, Shape, Bin;
    forall c | c in ix.loc && Under(top, ix.loc[c])
      ensures SizeOf(ix, c) >= size
    {
      ChunkFacts(ix, c);
      UnderInside(top, ix.loc[c]);
    }
  }

  lemma BeatsItself(ix: Index, v: int)
    requires v != 0 && v in ix.sizes
    ensures Beats(ix, v, SizeOf(ix, v))
  {
  }

  /** Below the least marked bin there is no chunk, and that bin has a root. */
  lemma LeastMarkedBin(m: Mem, smallmap: bv32, treemap: bv32, ix: Index)
    requires IndexOk(m, smallmap, treemap, ix) && treemap != 0
    ensures var i := TrailingZeros(LeastBit(treemap));
      && 0 <= i < 32 && Root(i) in ix.trie
      && TreeBinAt(i) in m && m[TreeBinAt(i)] == NodeAt(ix.trie, Root(i))
      && forall c :: c in ix.loc ==> Bin(ix.loc[c]) >= i
  {
    hide IndexOk, Bit, LeastBit, Shape, TreeIndex, Owns;
    ShapeOf(m, smallmap, treemap, ix);
    LeastBitIndex(treemap);
    var i := TrailingZeros(treemap);
    ReadTreeBin(m, smallmap, treemap, ix, i);
    forall c | c in ix.loc
      ensures Bin(ix.loc[c]) >= i
    {
      ChunkFacts(ix, c);
      var b := Bin(ix.loc[c]);
      RootCoversBin(ix, b, c);
      ReadTreeBin(m, smallmap, treemap, ix, b);
    }
  }

  lemma FitsAt(ix: Index, size: int, v: int)
    requires v != 0 && v in ix.loc && v in ix.sizes && ix.sizes[v] >= size
    ensures Fit(ix, size, v, ix.sizes[v] - size)
  {
  }

  lemma RootBin(i: int)
    ensures Bin(Root(i)) == i
  {
  }
}
