/** The allocator object of src/dlmalloc.rs. */
module Allocator {
  import opened Words
  import opened Bits
  import opened Memory
  import opened SizeClasses
  import opened Rings
  import opened FreeIndex
  import opened SmallBins
  import opened Tries
  import opened TrieOps
  import opened TrieRemoval
  import opened IndexReads
  import opened Unlinking
  import opened BestFit
  import opened Lookup
  import opened Search
  import opened Tiling
  import opened HeapState
  import opened HeapOps
  import opened Freeing
  import opened Segments
  import opened NewSegments
  import opened Prepending
  import opened Releasing
  import opened Resizing
  import opened Limits
  import opened Policy
  import opened Footprint
  import opened Traffic
  import opened Accounts

  class Dlmalloc {
    /** Whether the system supplies memory in multiples of `MIN_REGION` bytes. */
    const paged: bool

    /** Whether the system may take back a segment or the end of one, as `can_release_part` tells. */
    const releases: bool

    /** The most bytes the system ever has outstanding with this allocator. */
    const capacity: nat

    var mem: Mem
    var smallmap: bv32
    var treemap: bv32
    var dv: int
    var dvsize: int
    var top: int
    var topsize: int
    var footprint: int
    var maxFootprint: int
    var trimCheck: int
    var releaseChecks: int
    var granularity: int
    var maxReleaseCheckRate: int

    ghost var ix: Index
    ghost var cs: map<int, Chunk>
    ghost var segs: seq<Seg>
    /** How often the system has refused to supply memory. */
    ghost var denials: nat
    /** All calls to the system with their answers. */
    ghost var traffic: seq<SystemCall>

    /** `new`, lines 114-139 */
    constructor (paged: bool, releases: bool, capacity: nat)
      ensures this.paged == paged && this.releases == releases && this.capacity == capacity
      ensures Valid() && LiveOf(cs) == map[] && segs == [] && dv == 0 && top == 0
      ensures granularity == DEFAULT_GRANULARITY && maxReleaseCheckRate == 4095 && traffic == []
    {
      this.paged, this.releases, this.capacity := paged, releases, capacity;
      mem := ZeroStruct();
      smallmap, treemap := 0, 0;
      dv, dvsize, top, topsize := 0, 0, 0, 0;
      footprint, maxFootprint := 0, 0;
      trimCheck, releaseChecks := 0, 0;
      granularity, maxReleaseCheckRate := DEFAULT_GRANULARITY, 4095;
      ix := EmptyIndex();
      cs, segs := map[], [];
      denials, traffic := 0, [];
      new;
      hide Good, LegalGranularity, LiveOf, Total, ZeroStruct, EmptyIndex, Outstanding, Peak;
      NoTraffic();
      EmptyGood();
      assert State() == NewHeap();
      DefaultIsLegal();
      NoTotal();
    }

    /**
     The footprint is the sum of the segment sizes and what the system has outstanding, and `maxFootprint` is the most
     it ever had; the countdown to the next release pass is never zero, and top is not trimmed below the default
     threshold.
     */
    ghost predicate Accounted()
      reads this
    {
      && footprint == Total(segs) == Outstanding(traffic) && maxFootprint == Peak(traffic) && footprint <= capacity
      && LegalGranularity(granularity) && maxReleaseCheckRate >= 0 && trimCheck >= 0
      && (segs != [] ==> releaseChecks >= 1 && trimCheck >= DEFAULT_TRIM_THRESHOLD)
    }

    ghost predicate Valid()
      reads this
    {
      Good(State(), {}) && Accounted()
    }

    // ---------- when the release pass cannot go wrong ----------

    /** All segments are made of whole regions of `MIN_REGION` bytes, and stay so whatever is called. */
    ghost predicate WholeRegions()
      reads `segs, `granularity
    {
      paged && granularity >= MIN_REGION && Paged(segs)
    }

    /** How many large chunks can be freed before the release pass runs, whether or not there is a segment yet. */
    ghost function Countdown(): int
      reads `segs, `releaseChecks, `maxReleaseCheckRate
    {
      if segs == [] then ReleaseCheckTarget() else releaseChecks
    }

    ghost function Ledger(): Books
      reads `segs, `topsize, `granularity, `footprint, `trimCheck, `releaseChecks, `maxReleaseCheckRate
    {
      Books(segs, topsize, footprint, trimCheck, Countdown(), WholeRegions())
    }

    /** Freeing the block `p` reaches neither the trim of top nor the release pass. */
    ghost predicate PassUnreached(p: int)
      reads this
    {
      Quiet()
      || (releaseChecks > 1 && p in cs && (p + cs[p].size == top ==> top + topsize - FreeFrom(State(), p) <= trimCheck))
    }

    /** Nothing that is freed now reaches the trim of top or the release pass. */
    ghost predicate Quiet()
      reads `releaseChecks, `footprint, `trimCheck
    {
      releaseChecks > 1 && footprint <= trimCheck
    }

    /** The block `p` can be freed: the release pass is safe or out of reach. */
    ghost predicate FreeSafe(p: int)
      reads this
    {
      releases ==> TailLarge(segs) || PassUnreached(p)
    }

    /** Whatever the system supplies, top is never trimmed, and the next large chunk freed does not start the pass. */
    ghost predicate Calm()
      reads `releaseChecks
    {
      releaseChecks > 1 && capacity <= DEFAULT_TRIM_THRESHOLD
    }

    /** Any block can be freed after a request for `nb` bytes has been served. */
    ghost predicate MoveSafe(nb: int)
      reads this
    {
      releases ==>
        AllLarge(segs) || Calm() || (InHand(State(), nb) && Quiet())
    }

    /**
     The allocator can take `n` more calls: the release pass is safe for good, or the system never supplies enough for a
     trim and the countdown lasts. The second is what a small heap with the periodic pass disabled has.
     */
    ghost predicate RunSafe(n: nat)
      reads `segs, `granularity, `releaseChecks, `maxReleaseCheckRate
    {
      releases ==> WholeRegions() || (capacity <= DEFAULT_TRIM_THRESHOLD && Countdown() > n)
    }

    /** The whole state as a value. */
    ghost function State(): Heap
      reads this
    {
      Heap(mem, smallmap, treemap, ix, cs, segs, dv, dvsize, top, topsize)
    }

    // ---------- the free-chunk index ----------

    ghost predicate Indexed()
      reads this
    {
      IndexOk(mem, smallmap, treemap, ix)
    }

    /** Makes `chunk` the lone node at the empty trie position `key`, whose slot is the word `slot`. */
    method HangNode(chunk: int, size: int, slot: int, parent: int, treemap': bv32, ghost key: Key)
      requires Indexed() && CanAdd(mem, ix, chunk, size) && !IsSmall(size) && 0 <= size
      requires Scratched(mem, chunk, Bin(key)) && key !in ix.trie && (key.Kid? ==> key.up in ix.trie)
      requires Owns(key, size) && TreeIndex(size) == Bin(key) && Exp(key) >= 0 && NewSize(ix, size)
      requires slot == SlotOf(ix.trie, key) && parent == ParentOf(ix.trie, key)
      requires forall b :: 0 <= b < 32 ==> (Bit(treemap', b) <==> key == Root(b) || Bit(treemap, b))
      modifies `mem, `treemap, `ix
      ensures Indexed() && ix == AddNode(old(ix), key, chunk, size)
      ensures OnlyLinks(old(mem), mem, ix.sizes)
    {
      hide IndexOk, CanAdd, OnlyLinks, TreeIndex, Bit, Owns, Exp, Bin, Scratched, NewSize;
      FinishNode(mem, smallmap, treemap, treemap', ix, key, chunk, size);
      mem := mem[slot := chunk];
      mem := mem[chunk + PARENT := parent];
      mem := mem[chunk + NEXT := chunk];
      mem := mem[chunk + PREV := chunk];
      treemap := treemap';
      ix := AddNode(ix, key, chunk, size);
    }

    /** Makes `chunk` the last member of the ring of the node `t`, which has its size. */
    method JoinRing(t: int, chunk: int, size: int, ghost key: Key)
      requires Indexed() && CanAdd(mem, ix, chunk, size) && !IsSmall(size)
      requires Scratched(mem, chunk, Bin(key)) && key in ix.trie && NodeReads(mem, ix, key)
      requires t == ix.trie[key][0] && ix.sizes[t] == size
      modifies `mem, `ix
      ensures Indexed() && ix == AddMember(old(ix), key, chunk, size)
      ensures OnlyLinks(old(mem), mem, ix.sizes)
    {
      hide IndexOk, CanAdd, OnlyLinks, Bin, Owns, TreeIndex, Exp, Scratched;
      FinishMember(mem, smallmap, treemap, ix, key, chunk, size);
      LinkedLastDomain(mem, treemap, smallmap, ix, key, chunk, size);
      var f := mem[t + PREV];
      mem := mem[f + NEXT := chunk];
      mem := mem[t + PREV := chunk];
      mem := mem[chunk + PREV := f];
      mem := mem[chunk + NEXT := t];
      mem := mem[chunk + PARENT := 0];
      ix := AddMember(ix, key, chunk, size);
    }

    /** `insert_large_chunk`, lines 1099-1140 */
    method InsertLargeChunk(chunk: int, size: int)
      requires Indexed() && CanAdd(mem, ix, chunk, size) && !IsSmall(size)
      modifies `mem, `treemap, `ix
      ensures Indexed()
      ensures ix.sizes == old(ix.sizes)[chunk := size] && ix.small == old(ix.small)
      ensures OnlyLinks(old(mem), mem, ix.sizes)
    {
      hide IndexOk, CanAdd, OnlyLinks, TreeIndex, Shl, TopBit, Bit, Mark, Aligned, Owns, Exp, LeftShiftForTreeIndex,
           ShiftLeft, Lo, Scratched, Shape, NoneAbove, NewSize;
      ghost var m0, sizes' := mem, ix.sizes[chunk := size];
      var idx := TreeIndex(size);
      NewIsLarge(mem, ix, chunk, size);
      ShiftedAtRoot(size, idx);
      var h := TreeBinAt(idx);
      Scratch(mem, smallmap, treemap, ix, chunk, size, idx);
      mem := mem[chunk + INDEX := idx];
      mem := mem[chunk + LEFT := 0];
      mem := mem[chunk + RIGHT := 0];
      ghost var m1 := mem;
      ReadTreeBin(mem, smallmap, treemap, ix, idx);
      ShapeOf(mem, smallmap, treemap, ix);
      assert NoneAbove(ix, size, Root(idx)) by { NothingAboveRoot(ix, size, idx); }
      if !Bit(treemap, idx) {
        PathEnds(ix, size, Root(idx));
        MarkAll(treemap, idx);
        HangNode(chunk, size, h, h, Mark(treemap, idx), Root(idx));
      } else {
        var t := mem[h];
        var k := Shl(size, LeftShiftForTreeIndex(idx));
        ghost var key := Root(idx);
        while true
          invariant mem == m1 && treemap == old(treemap) && ix == old(ix)
          invariant key in ix.trie && t == NodeAt(ix.trie, key)
          invariant Bin(key) == idx && Owns(key, size) && Aligned(k, size, key)
          invariant NoneAbove(ix, size, key)
          decreases Exp(key)
        {
          ReadNode(mem, smallmap, treemap, ix, key);
          if Size(mem[t + HEAD]) != size {
            RoomToDescend(key, size, ix.sizes[t]);
            TopBitPicksKid(k, size, key);
            TowardsOwns(key, size);
            ReadKid(mem, smallmap, treemap, ix, key, TopBit(k));
            ghost var below := Towards(key, size);
            NoneAboveKid(ix, size, key, below.right);
            var c := t + (if TopBit(k) then RIGHT else LEFT);
            k := Shl(k, 1);
            if mem[c] != 0 {
              t := mem[c];
              key := below;
            } else {
              PathEnds(ix, size, below);
              HangNode(chunk, size, c, t, treemap, below);
              break;
            }
          } else {
            JoinRing(t, chunk, size, key);
            break;
          }
        }
      }
      LinksCompose(m0, m1, mem, sizes');
    }

    /**
     The second half of `unlink_large_chunk`, lines 1223-1249: puts `r` in the place of the node `chunk` at `k`.
     When `r` is null the node has no children and its slot is cleared.
     */
    method Reseat(chunk: int, r: int, xp: int, ghost trie: map<Key, seq<int>>, ghost k: Key)
      requires SeatReady(mem, trie, k, chunk, r) && xp == ParentOf(trie, k)
      requires r == 0 ==> Kid(k, false) !in trie && Kid(k, true) !in trie
      modifies `mem, `treemap
      ensures r != 0 ==> HeadMoved(old(mem), mem, trie, k, r) && treemap == old(treemap)
      ensures r == 0 ==> mem == old(mem)[SlotOf(trie, k) := 0]
      ensures r == 0 ==> treemap == if k.Root? then Clear(old(treemap), Bin(k)) else old(treemap)
    {
      hide Clear, HeadMoved;
      ghost var m0 := mem;
      var idx := mem[chunk + INDEX];
      var h := TreeBinAt(idx);
      if chunk == mem[h] {
        mem := mem[h := r];
        if r == 0 {
          treemap := Clear(treemap, idx);
        }
      } else {
        if mem[xp + LEFT] == chunk {
          mem := mem[xp + LEFT := r];
        } else {
          mem := mem[xp + RIGHT := r];
        }
      }
      assert mem == m0[SlotOf(trie, k) := r];
      if r != 0 {
        SeatedMoves(m0, trie, k, chunk, r);
        SlotIsElsewhere(m0, trie, k, chunk, r, chunk);
        AdoptKids(chunk, r, xp, m0, trie, k);
      }
    }

    /** Lines 1237-1249: `r` takes over the parent and the children of `chunk`. */
    method AdoptKids(chunk: int, r: int, xp: int, ghost m0: Mem, ghost trie: map<Key, seq<int>>, ghost k: Key)
      requires SeatReady(m0, trie, k, chunk, r) && r != 0 && xp == ParentOf(trie, k)
      requires mem == m0[SlotOf(trie, k) := r]
      requires SlotOf(trie, k) < chunk || chunk + INDEX < SlotOf(trie, k)
      modifies `mem
      ensures mem == Seated(m0, trie, k, r)
    {
      assert mem.Keys == m0.Keys && SameTreeWords(m0, mem, chunk);
      hide SlotOf, ParentOf, UpReady;
      mem := mem[r + PARENT := xp];
      var c0 := mem[chunk + LEFT];
      if c0 != 0 {
        mem := mem[r + LEFT := c0];
        mem := mem[c0 + PARENT := r];
      }
      var c1 := mem[chunk + RIGHT];
      if c1 != 0 {
        mem := mem[r + RIGHT := c1];
        mem := mem[c1 + PARENT := r];
      }
    }

    /**
     The descent of lines 1204-1213: from the slot of a kid of `k`, always preferring the right child, to the slot
     of a leaf.
     */
    method FindLeaf(start: int, ghost k: Key, ghost kid: bool) returns (rp: int, ghost leaf: Key)
      requires Indexed() && k in ix.trie && Kid(k, kid) in ix.trie && start == SlotOf(ix.trie, Kid(k, kid))
      ensures Leaf(ix, leaf) && Under(k, leaf) && leaf != k
      ensures rp == SlotOf(ix.trie, leaf)
    {
      hide IndexOk, Owns, TreeIndex, Bin;
      rp := start;
      leaf := Kid(k, kid);
      ReadNode(mem, smallmap, treemap, ix, leaf);
      SlotOfNode(mem, smallmap, treemap, ix, leaf);
      while true
        invariant leaf in ix.trie && Under(Kid(k, kid), leaf)
        invariant rp == SlotOf(ix.trie, leaf) && rp in mem && mem[rp] == NodeAt(ix.trie, leaf)
        invariant Exp(leaf) >= 0
        decreases Exp(leaf)
      {
        ReadNode(mem, smallmap, treemap, ix, leaf);
        ReadKid(mem, smallmap, treemap, ix, leaf, false);
        ReadKid(mem, smallmap, treemap, ix, leaf, true);
        var cp := mem[rp] + RIGHT;
        ghost var right := true;
        if mem[cp] == 0 {
          cp := mem[rp] + LEFT;
          right := false;
        }
        if mem[cp] == 0 {
          break;
        }
        rp := cp;
        leaf := Kid(leaf, right);
        ReadNode(mem, smallmap, treemap, ix, leaf);
      }
      UnderInside(Kid(k, kid), leaf);
      UnderTrans(k, Kid(k, kid), leaf);
    }

    /** `unlink_large_chunk`, lines 1189-1250 */
    method UnlinkLargeChunk(chunk: int)
      requires Indexed() && chunk in ix.loc
      modifies `mem, `treemap, `ix
      ensures Indexed()
      ensures ix.sizes == old(ix.sizes) - {chunk} && ix.small == old(ix.small)
      ensures OnlyLinks(old(mem), mem, old(ix.sizes))
    {
      hide IndexOk, OnlyLinks, Owns, TreeIndex, Bin, Exp, HeadMoved, SeatReady, UnlinkAt, Bit, Clear, OnlyTreeWords;
      ghost var k := ix.loc[chunk];
      ghost var m0, ix0 := mem, ix;
      ghost var j := PlaceOf(mem, smallmap, treemap, ix, chunk);
      ghost var ring := ix.trie[k];
      var xp := mem[chunk + PARENT];
      var r: int;
      ghost var leaf := k;
      ghost var trie := ix.trie;
      if mem[chunk + NEXT] != chunk {
        var f := mem[chunk + PREV];
        r := mem[chunk + NEXT];
        mem := mem[f + NEXT := r];
        mem := mem[r + PREV := f];
        assert mem == UnlinkAt(m0, ring, j) by { UnlinkWrites(m0, ring, j); }
        if j > 0 {
          RemoveMember(m0, mem, smallmap, treemap, ix, k, j);
        } else {
          NextIsCandidate(m0, smallmap, treemap, ix, k);
        }
      } else {
        var rp := chunk + RIGHT;
        ghost var kid := true;
        ReadKid(mem, smallmap, treemap, ix, k, false);
        ReadKid(mem, smallmap, treemap, ix, k, true);
        if mem[rp] == 0 {
          rp := chunk + LEFT;
          kid := false;
        }
        r := mem[rp];
        if mem[rp] != 0 {
          rp, leaf := FindLeaf(rp, k, kid);
          ReadNode(mem, smallmap, treemap, ix, leaf);
          LeafIsCandidate(mem, smallmap, treemap, ix, leaf, k);
          r := mem[rp];
          mem := mem[rp := 0];
          trie := ix.trie - {leaf};
        } else {
          AloneIsReady(mem, smallmap, treemap, ix, k);
        }
      }
      if xp == 0 {
        ix := DropMember(ix, k, j);
        TreeWordsAreLinks(m0, mem, ix0.sizes);
        return;
      }
      assert j == 0;
      ghost var m1 := mem;
      Reseat(chunk, r, xp, trie, k);
      if |ring| >= 2 {
        RemoveHead(m0, mem, smallmap, treemap, ix, k);
        ix := DropMember(ix, k, 0);
      } else if r != 0 {
        RemoveInner(m0, mem, smallmap, treemap, ix, leaf, k);
        ix := LiftLeaf(ix, leaf, k);
      } else {
        RootBits(old(treemap), treemap, k);
        RemoveLeaf(m0, mem, smallmap, old(treemap), treemap, ix, k);
        ix := DropNode(ix, k);
      }
      TreeWordsAreLinks(m0, mem, ix0.sizes);
    }

    /** `insert_small_chunk`, lines 1081-1097 */
    method InsertSmallChunk(chunk: int, size: int)
      requires Indexed() && CanAdd(mem, ix, chunk, size) && IsSmall(size) && size == 8 * SmallIndex(size) && 0 <= size
      modifies `mem, `smallmap, `ix
      ensures Indexed()
      ensures ix.sizes == old(ix.sizes)[chunk := size] && ix.trie == old(ix.trie) && ix.loc == old(ix.loc)
      ensures Newest(ix, chunk)
      ensures OnlyLinks(old(mem), mem, ix.sizes)
    {
      hide IndexOk, OnlyLinks, Bit, Mark, CanAdd;
      var idx := SmallIndex(size);
      ghost var m0 := mem;
      ReadSmallBin(mem, smallmap, treemap, ix, idx);
      MarkAll(smallmap, idx);
      LinkLastIsLinks(mem, smallmap, treemap, ix, idx, chunk, size);
      assert chunk + PREV in mem && chunk + NEXT in mem by { NewWords(mem, ix, chunk, size); }
      var f: int;
      var head := SmallBinAt(idx);
      ghost var smallmap0 := smallmap;
      if !Bit(smallmap, idx) {
        smallmap := Mark(smallmap, idx);
        f := head;
      } else {
        f := mem[head + PREV];
      }
      InsertSmall(mem, smallmap0, smallmap, treemap, ix, chunk, size);
      mem := mem[head + PREV := chunk];
      mem := mem[f + NEXT := chunk];
      mem := mem[chunk + PREV := f];
      mem := mem[chunk + NEXT := head];
      ix := AddSmall(ix, chunk, size);
      assert mem == LinkLast(m0, old(ix).small[idx], chunk);
    }

    /** `unlink_small_chunk`, lines 1174-1187 */
    method UnlinkSmallChunk(chunk: int, size: int)
      requires Indexed() && chunk in ix.sizes && ix.sizes[chunk] == size && IsSmall(size)
      modifies `mem, `smallmap, `ix
      ensures Indexed()
      ensures ix.sizes == old(ix.sizes) - {chunk} && ix.trie == old(ix.trie) && ix.loc == old(ix.loc)
      ensures OnlyLinks(old(mem), mem, old(ix.sizes))
    {
      hide IndexOk, OnlyLinks, Bit, Clear;
      ghost var m0 := mem;
      ghost var j := SmallPlaceOf(mem, smallmap, treemap, ix, chunk);
      var f := mem[chunk + PREV];
      var b := mem[chunk + NEXT];
      var idx := SmallIndex(size);
      ghost var smallmap0 := smallmap;
      ClearAll(smallmap, idx);
      UnlinkAtIsLinks(mem, smallmap, treemap, ix, idx, j);
      NoWrites(mem, ix.sizes);
      if b == f {
        smallmap := Clear(smallmap, idx);
      } else {
        mem := mem[f + NEXT := b];
        mem := mem[b + PREV := f];
      }
      RemoveSmall(m0, mem, smallmap0, smallmap, treemap, ix, idx, j);
      ix := DropSmall(ix, idx, j);
    }

    /** `unlink_first_small_chunk`, lines 1049-1060: takes the last chunk off bin `idx`. */
    method UnlinkFirstSmallChunk(head: int, next: int, idx: int)
      requires Indexed() && 0 <= idx < 32 && Bit(smallmap, idx)
      requires head == SmallBinAt(idx) && head + PREV in mem && next == mem[head + PREV]
      modifies `mem, `smallmap, `ix
      ensures Indexed()
      ensures next in old(ix.sizes) && old(ix.sizes)[next] == 8 * idx && Newest(old(ix), next)
      ensures ix.sizes == old(ix.sizes) - {next} && ix.trie == old(ix.trie) && ix.loc == old(ix.loc)
      ensures OnlyLinks(old(mem), mem, old(ix.sizes))
    {
      hide IndexOk, OnlyLinks, Bit, Clear;
      ghost var m0 := mem;
      ReadSmallBin(mem, smallmap, treemap, ix, idx);
      ghost var r := ix.small[idx];
      ghost var j := |r| - 1;
      ghost var smallmap0 := smallmap;
      assert (|r| == 2 <==> r[|r| - 2] == head) by { FirstOnly(mem, smallmap, treemap, ix, idx); }
      ClearAll(smallmap, idx);
      UnlinkAtIsLinks(mem, smallmap, treemap, ix, idx, j);
      NoWrites(mem, ix.sizes);
      var ptr := mem[next + PREV];
      if head == ptr {
        smallmap := Clear(smallmap, idx);
      } else {
        mem := mem[ptr + NEXT := head];
        mem := mem[head + PREV := ptr];
      }
      RemoveSmall(m0, mem, smallmap0, smallmap, treemap, ix, idx, j);
      ix := DropSmall(ix, idx, j);
    }

    /** `insert_chunk`, lines 1073-1079 */
    method InsertChunk(chunk: int, size: int)
      requires Indexed() && CanAdd(mem, ix, chunk, size) && size % 16 == 0 && 0 <= size
      modifies `mem, `smallmap, `treemap, `ix
      ensures Indexed()
      ensures ix.sizes == old(ix.sizes)[chunk := size]
      ensures OnlyLinks(old(mem), mem, ix.sizes)
    {
      hide IndexOk, OnlyLinks, CanAdd;
      if IsSmall(size) {
        InsertSmallChunk(chunk, size);
      } else {
        InsertLargeChunk(chunk, size);
      }
    }

    /** `unlink_chunk`, lines 1166-1172 */
    method UnlinkChunk(chunk: int, size: int)
      requires Indexed() && chunk in ix.sizes && ix.sizes[chunk] == size
      modifies `mem, `smallmap, `treemap, `ix
      ensures Indexed()
      ensures ix.sizes == old(ix.sizes) - {chunk}
      ensures OnlyLinks(old(mem), mem, old(ix.sizes))
    {
      hide IndexOk, OnlyLinks;
      if IsSmall(size) {
        UnlinkSmallChunk(chunk, size);
      } else {
        LargeIsLocated(mem, smallmap, treemap, ix, chunk);
        UnlinkLargeChunk(chunk);
      }
    }

    // ---------- the best-fit search ----------

    /**
     The first loop of `tmalloc_large`, lines 952-984: follows the bits of `size` down its bin, remembering the best
     node so far and the deepest untaken right subtree. Returns where to go on and the best node so far.
     */
    method SearchBin(size: int, idx: int) returns (t: int, v: int, rsize: int, ghost top: Key)
      requires Indexed() && MIN_LARGE_SIZE <= size < WORD_LIMIT && idx == TreeIndex(size) && 0 <= idx < 32
      ensures Shape(ix) && Fit(ix, size, v, rsize)
      ensures v != 0 ==> v in ix.loc && Bin(ix.loc[v]) == idx
      ensures t != 0 ==> top in ix.trie && t == NodeAt(ix.trie, top) && Bin(top) == idx
      ensures t != 0 && rsize != 0 ==> size < Lo(top) && AboveSeen(ix, size, v, top)
      ensures rsize != 0 ==> RightAside(ix, idx, v, size, t, top)
      ensures Descent(t, top, Pick(v, rsize)) == Descend(ix, size, Root(idx), Pick(0, WORD_LIMIT - size), 0, Root(idx))
    {
      hide IndexOk, TreeIndex, Aligned, Shl, TopBit, Owns, Exp, Lo, Hi, Shape, AboveSeen, RightAside, Aside, Fit, Beats,
           LeftShiftForTreeIndex, Descend;
      v := 0;
      rsize := WORD_LIMIT - size;
      top := Root(idx);
      assert Fit(ix, size, v, rsize) by { NoFit(ix, size); }
      ShapeOf(mem, smallmap, treemap, ix);
      ReadTreeBin(mem, smallmap, treemap, ix, idx);
      ShiftedAtRoot(size, idx);
      SearchStarts(ix, size, idx);
      ghost var start := Descend(ix, size, Root(idx), Pick(0, WORD_LIMIT - size), 0, Root(idx));
      DescendStep(ix, size, Root(idx), Pick(v, rsize), 0, Root(idx));
      t := mem[TreeBinAt(idx)];
      if t != 0 {
        var sizebits := Shl(size, LeftShiftForTreeIndex(idx));
        var rst := 0;
        ghost var rk := Root(idx);
        ghost var key := Root(idx);
        while true
          invariant start == Descend(ix, size, key, Pick(v, rsize), rst, rk)
          invariant key in ix.trie && t == NodeAt(ix.trie, key)
          invariant Bin(key) == idx && Owns(key, size) && Aligned(sizebits, size, key)
          invariant Fit(ix, size, v, rsize) && rsize > 0
          invariant v != 0 ==> v in ix.loc && Bin(ix.loc[v]) == idx
          invariant AboveSeen(ix, size, v, key) && Aside(ix, size, key, rst, rk)
          invariant RightAside(ix, idx, v, Hi(key), rst, rk)
          decreases Exp(key)
        {
          ReadNode(mem, smallmap, treemap, ix, key);
          Improve(ix, size, v, rsize, t);
          var csize := Size(mem[t + HEAD]);
          SeenMore(ix, size, v, if Closer(csize, size, rsize) then t else v, key, rst, rk, idx);
          DescendStep(ix, size, key, Pick(v, rsize), rst, rk);
          if csize >= size && csize - size < rsize {
            v := t;
            rsize := csize - size;
            if rsize == 0 {
              top := key;
              break;
            }
          }
          NotExact(ix, size, v, rsize, t);
          RoomToDescend(key, size, csize);
          TopBitPicksKid(sizebits, size, key);
          TowardsOwns(key, size);
          StepDown(ix, size, v, key, rst, rk);
          ReadKid(mem, smallmap, treemap, ix, key, false);
          ReadKid(mem, smallmap, treemap, ix, key, true);
          ghost var below := Towards(key, size);
          var rt := mem[t + RIGHT];
          t := mem[t + (if TopBit(sizebits) then RIGHT else LEFT)];
          KidsDiffer(mem, smallmap, treemap, ix, key);
          if rt != 0 && rt != t {
            rst := rt;
            rk := Kid(key, true);
          }
          if t == 0 {
            DescendStep(ix, size, below, Pick(v, rsize), rst, rk);
            FellOff(ix, size, v, below, rst, rk);
            t := rst;
            top := rk;
            AsideFacts(ix, size, below, rst, rk);
            break;
          }
          key := below;
          sizebits := Shl(sizebits, 1);
        }
      }
    }

    /** The second loop, lines 996-1004: the smallest chunk of a subtree lies on its leftmost path. */
    method SearchLeft(size: int, t0: int, v0: int, rsize0: int, ghost top: Key) returns (v: int, rsize: int)
      requires Indexed() && MIN_LARGE_SIZE <= size < WORD_LIMIT && Fit(ix, size, v0, rsize0)
      requires t0 != 0 ==> top in ix.trie && t0 == NodeAt(ix.trie, top)
      requires t0 != 0 && rsize0 != 0 ==>
        forall c :: c in ix.loc && Under(top, ix.loc[c]) ==> SizeOf(ix, c) >= size
      ensures Fit(ix, size, v, rsize)
      ensures forall b :: Beats(ix, v0, b) ==> Beats(ix, v, b)
      ensures t0 != 0 && rsize0 != 0 ==> forall c :: c in ix.loc && Under(top, ix.loc[c]) ==>
        Beats(ix, v, SizeOf(ix, c))
      ensures rsize0 == 0 ==> v == v0 && rsize == 0
      ensures t0 == 0 ==> v == v0
      ensures Pick(v, rsize) == if t0 == 0 then Pick(v0, rsize0) else Leftmost(ix, size, top, Pick(v0, rsize0))
    {
      hide IndexOk, TreeIndex, Owns, Lo, Hi, Bin, Shape, Fit, Beats, LeftToSee, Leftmost;
      v, rsize := v0, rsize0;
      var t := t0;
      ghost var key := top;
      ShapeOf(mem, smallmap, treemap, ix);
      LeftStarts(ix, v, top);
      while t != 0
        invariant t != 0 ==> key in ix.trie && t == NodeAt(ix.trie, key) && Under(top, key)
        invariant Fit(ix, size, v, rsize)
        invariant forall b :: Beats(ix, v0, b) ==> Beats(ix, v, b)
        invariant rsize0 == 0 ==> v == v0 && rsize == 0
        invariant t0 == 0 ==> v == v0
        invariant t0 == 0 ==> t == 0 && rsize == rsize0
        invariant t0 != 0 ==> Leftmost(ix, size, top, Pick(v0, rsize0)) == Leftmost(ix, size, key, Pick(v, rsize))
        invariant t0 != 0 && t == 0 ==> key !in ix.trie
        invariant rsize0 != 0 && t != 0 ==> LeftToSee(ix, v, top, key)
        invariant rsize0 != 0 && t == 0 && t0 != 0 ==>
          forall c :: c in ix.loc && Under(top, ix.loc[c]) ==> Beats(ix, v, SizeOf(ix, c))
        decreases t != 0, if t != 0 then Exp(key) else 0
      {
        ReadNode(mem, smallmap, treemap, ix, key);
        Improve(ix, size, v, rsize, t);
        var csize := Size(mem[t + HEAD]);
        LeftSeenMore(ix, v, if Closer(csize, size, rsize) then t else v, top, key);
        LeftmostStep(ix, size, key, Pick(v, rsize));
        if csize >= size && csize - size < rsize {
          rsize := csize - size;
          v := t;
        }
        ReadKid(mem, smallmap, treemap, ix, key, false);
        ReadKid(mem, smallmap, treemap, ix, key, true);
        ghost var k := key;
        if mem[t + LEFT] != 0 {
          t := mem[t + LEFT];
          key := Kid(key, false);
        } else {
          t := mem[t + RIGHT];
          key := Kid(key, true);
        }
        if t != 0 {
          ReadNode(mem, smallmap, treemap, ix, key);
          UnderTrans(top, k, key);
        }
        if rsize0 != 0 {
          assert Under(top, ix.loc[NodeAt(ix.trie, k)]);
          if t != 0 {
            StepLeft(ix, v, top, k, key.right);
          } else {
            LeftDone(ix, v, top, k);
          }
        }
      }
      LeftmostStep(ix, size, key, Pick(v, rsize));
    }

    /**
     The search of `tmalloc_large`, lines 952-1004: the least chunk in any tree bin that holds `size` bytes, or null
     when none does.
     */
    method BestLarge(size: int) returns (v: int, rsize: int)
      requires Indexed() && MIN_LARGE_SIZE <= size < WORD_LIMIT
      ensures BestFitting(ix, size, v)
      ensures v != 0 ==> v in ix.sizes && rsize == ix.sizes[v] - size
      ensures 0 <= TreeIndex(size) < 32 && Pick(v, rsize) == Chosen(ix, treemap, size)
    {
      hide IndexOk, TreeIndex, Owns, Exp, Lo, Hi, Shape, Beats, BestFitting, AboveSeen, RightAside, Bit, One, LeftBits,
           LeastBit, And, Descend, Leftmost;
      assert 0 <= TreeIndex(size) < 32 by { TreeIndexInterval(size); }
      var idx := TreeIndex(size);
      var t: int;
      ghost var top: Key;
      t, v, rsize, top := SearchBin(size, idx);
      ghost var v1, t1, rsize1 := v, t, rsize;
      LowerBinsAreSmaller(ix, size);
      ghost var i := 32;
      if t == 0 && v == 0 {
        var leftbits := And(LeftBits(One(idx)), treemap);
        BinAboveIsLeast(treemap, idx);
        OwnBinEmpty(ix, size, idx, top);
        i := BinAbove(treemap, idx);
        UnmarkedBinsEmpty(mem, smallmap, treemap, ix, size, i);
        if leftbits != 0 {
          var leastbit := LeastBit(leftbits);
          ReadTreeBin(mem, smallmap, treemap, ix, TrailingZeros(leastbit));
          BelowRootFits(ix, size, i);
          top := Root(i);
          PositionFacts(ix, top);
          t := mem[TreeBinAt(TrailingZeros(leastbit))];
        }
      } else if t != 0 && rsize != 0 {
        BelowAsideFits(ix, size, top);
        PositionFacts(ix, top);
      }
      v, rsize := SearchLeft(size, t, v, rsize, top);
      if rsize1 == 0 {
        ExactIsBest(ix, size, v);
      } else if t1 != 0 {
        AsideDone(ix, size, v1, v, top);
        assert Under(top, ix.loc[t1]);
        BestInBin(ix, size, v, rsize, idx, t1);
      } else if v1 != 0 {
        BinBest(ix, size, idx, v1, top);
        assert Beats(ix, v1, SizeOf(ix, v1)) by { BeatsItself(ix, v1); }
        BestInBin(ix, size, v, rsize, idx, v1);
      } else if t != 0 {
        assert Under(top, ix.loc[t]);
        forall c | c in ix.loc && Bin(ix.loc[c]) == i
          ensures Beats(ix, v, SizeOf(ix, c))
        {
          RootCoversBin(ix, i, c);
        }
        BestInBin(ix, size, v, rsize, i, t);
      } else {
        NothingFits(ix, size);
      }
    }

    /**
     The search of `tmalloc_small`, lines 918-934: the least chunk in any tree bin. Every tree chunk is larger than
     a small request, so this one is the best fit.
     */
    method BestSmall(size: int) returns (v: int, rsize: int)
      requires Indexed() && 0 <= size < MIN_LARGE_SIZE && treemap != 0
      ensures v != 0 && BestFitting(ix, size, v)
      ensures v in ix.sizes && rsize == ix.sizes[v] - size
    {
      hide IndexOk, TreeIndex, Owns, Lo, Hi, Shape, Beats, BestFitting, LeftToSee, Bit, LeastBit, Bin;
      ShapeOf(mem, smallmap, treemap, ix);
      LeastMarkedBin(mem, smallmap, treemap, ix);
      var leastbit := LeastBit(treemap);
      var i := TrailingZeros(leastbit);
      v := mem[TreeBinAt(i)];
      var t := v;
      ghost var top, key := Root(i), Root(i);
      ReadNode(mem, smallmap, treemap, ix, key);
      rsize := Size(mem[t + HEAD]) - size;
      ghost var root := t;
      assert Fit(ix, size, v, rsize) by { FitsAt(ix, size, v); }
      LeftStarts(ix, v, top);
      BeatsItself(ix, v);
      while true
        invariant key in ix.trie && t == NodeAt(ix.trie, key) && Under(top, key)
        invariant Fit(ix, size, v, rsize) && v != 0
        invariant LeftToSee(ix, v, top, key) && Beats(ix, v, SizeAt(ix, key))
        decreases Exp(key)
      {
        ReadNode(mem, smallmap, treemap, ix, key);
        ReadKid(mem, smallmap, treemap, ix, key, false);
        ReadKid(mem, smallmap, treemap, ix, key, true);
        ghost var k := key;
        if mem[t + LEFT] != 0 {
          t := mem[t + LEFT];
          key := Kid(key, false);
        } else {
          t := mem[t + RIGHT];
          key := Kid(key, true);
        }
        if t == 0 {
          LeftDone(ix, v, top, k);
          break;
        }
        StepLeft(ix, v, top, k, key.right);
        ReadNode(mem, smallmap, treemap, ix, key);
        UnderTrans(top, k, key);
        Improve(ix, size, v, rsize, t);
        var trem := Size(mem[t + HEAD]) - size;
        LeftSeenMore(ix, v, if Closer(ix.sizes[t], size, rsize) then t else v, top, key);
        if trem < rsize {
          rsize := trem;
          v := t;
        }
      }
      forall c | c in ix.loc && Bin(ix.loc[c]) == i
        ensures Beats(ix, v, SizeOf(ix, c))
      {
        RootCoversBin(ix, i, c);
      }
      PositionFacts(ix, top);
      assert Under(top, ix.loc[root]);
      assert Bin(ix.loc[root]) == i by { RootBin(i); }
      BestInBin(ix, size, v, rsize, i, root);
    }

    // ---------- handing out free memory ----------

    /** `unlink_chunk` on a good heap: the chunk is in hand afterwards. */
    method TakeFromBin(chunk: int, size: int, ghost holes: set<int>)
      requires Good(State(), holes) && chunk in ix.sizes && ix.sizes[chunk] == size
      modifies `mem, `smallmap, `treemap, `ix
      ensures Good(State(), holes + {chunk}) && Untouched(old(mem), mem, LiveOf(cs))
      ensures ix.sizes == old(ix.sizes) - {chunk}
    {
      hide Good, Untouched, LiveOf, OnlyLinks, IndexOk;
      ghost var h0 := State();
      assert Indexed() by { GoodIndex(h0, holes); }
      UnlinkChunk(chunk, size);
      UnlinkedGood(h0, State(), chunk, holes);
    }

    /** `insert_chunk` on a good heap: the chunk in hand is in a bin afterwards. */
    method PutInBin(chunk: int, size: int, ghost holes: set<int>)
      requires Good(State(), holes) && chunk in holes && chunk in cs && cs[chunk].size == size
      modifies `mem, `smallmap, `treemap, `ix
      ensures Good(State(), holes - {chunk}) && Untouched(old(mem), mem, LiveOf(cs))
      ensures ix.sizes == old(ix.sizes)[chunk := size]
    {
      hide Good, Untouched, LiveOf, OnlyLinks, IndexOk, CanAdd, FreeSizes;
      ghost var h0 := State();
      assert Indexed() by { GoodIndex(h0, holes); }
      HoleFits(h0, chunk, holes);
      InsertChunk(chunk, size);
      InsertedGood(h0, State(), chunk, holes);
    }

    /** Puts the small designated victim in its bin; the fields still name it. */
    method BinVictim(ghost holes: set<int>)
      requires Good(State(), holes) && dvsize != 0 && IsSmall(dvsize)
      modifies `mem, `smallmap, `ix
      ensures Good(NoVictim(State()), holes) && Untouched(old(mem), mem, LiveOf(cs))
    {
      hide Good, Untouched, LiveOf, OnlyLinks, IndexOk, CanAdd, IsSmall, SmallIndex;
      ghost var h0 := State();
      VictimReads(h0, holes);
      VictimFits(h0, holes);
      SmallIndexExact(dvsize);
      InsertSmallChunk(dv, dvsize);
      VictimBinned(h0, State(), holes);
    }

    /** `replace_dv`, lines 1062-1071 */
    method ReplaceDv(chunk: int, size: int)
      requires Good(State(), {chunk}) && chunk in cs && cs[chunk].size == size && IsSmall(dvsize)
      modifies `mem, `smallmap, `ix, `dv, `dvsize
      ensures Good(State(), {}) && Untouched(old(mem), mem, LiveOf(cs))
      ensures dv == chunk && dvsize == size
    {
      hide Good, Untouched, LiveOf, IsSmall;
      VictimReads(State(), {chunk});
      UntouchedSelf(State(), {chunk});
      var dvs := dvsize;
      if dvs != 0 {
        BinVictim({chunk});
      }
      HoleToVictim(NoVictim(State()), {chunk}, chunk);
      assert {chunk} - {chunk} == {};
      dvsize := size;
      dv := chunk;
    }

    /** Hands out the free chunk `p`, which is in hand, as it is. */
    method UseWhole(p: int, size: int, ghost nb: int, ghost req: int)
      requires Good(State(), {p}) && p in cs && cs[p].size == size
      requires Fits(req, nb) && nb <= size < nb + MIN_CHUNK_SIZE
      modifies `mem, `cs
      ensures Good(State(), {}) && Allocated(old(State()), State(), p, req, nb)
    {
      hide Good, Untouched, LiveOf, RunOk, KindOk, Allocated, Retile, HeadWord;
      ghost var h0 := State();
      HoleRun(h0, {p}, p);
      UntouchedSelf(h0, {p});
      assert p % 16 == 0 && HEAP_START <= p && size % 16 == 0;
      hide TagReads, HoleReads;
      FitsKind(req, nb, size);
      TakeWhole(h0, {p}, p, size, req);
      assert {p} - {p} == {};
      mem := SetInuseAndPinuse(mem, p, size);
      cs := WholeTaken(h0, p, size, req).cs;
      AllocatedLater(h0, h0, State(), p, req, nb, size);
    }

    /**
     The end of `tmalloc_small`, `tmalloc_large` and the small-bin branch of `malloc`: hands out the front of the
     free chunk `p`. A rest of at least a minimum chunk is split off and returned in hand.
     */
    method Carve(p: int, nb: int, rsize: int, ghost req: int) returns (r: int)
      requires Good(State(), {p}) && p in cs && cs[p].size == nb + rsize && Fits(req, nb) && rsize >= 0
      modifies `mem, `cs
      ensures r == (if rsize < MIN_CHUNK_SIZE then 0 else p + nb)
      ensures Good(State(), if r == 0 then {} else {r})
      ensures r != 0 ==> r in cs && cs[r].size == rsize
      ensures Allocated(old(State()), State(), p, req, nb)
    {
      hide Good, Untouched, LiveOf, RunOk, KindOk, Allocated, Retile, HeadWord;
      ghost var h0 := State();
      HoleRun(h0, {p}, p);
      UntouchedSelf(h0, {p});
      assert p % 16 == 0 && HEAP_START <= p && (nb + rsize) % 16 == 0;
      hide TagReads, HoleReads;
      if rsize < MIN_CHUNK_SIZE {
        UseWhole(p, nb + rsize, nb, req);
        r := 0;
      } else {
        FitsKind(req, nb, nb);
        FreeKind(rsize);
        TakeSplit(h0, {p}, p, nb, nb + rsize, req);
        r := p + nb;
        assert {p} - {p} + {r} == {r};
        mem := SetSizeAndPinuseOfInuseChunk(mem, p, nb);
        mem := SetSizeAndPinuseOfFreeChunk(mem, r, rsize);
        cs := SplitTaken(h0, p, nb, nb + rsize, req).cs;
        AllocatedLater(h0, h0, State(), p, req, nb, nb);
      }
    }

    /** `unlink_large_chunk` on a good heap: the chunk is in hand afterwards. */
    method TakeLarge(v: int)
      requires Good(State(), {}) && v in ix.loc && v in ix.sizes
      modifies `mem, `treemap, `ix
      ensures Good(State(), {v}) && Untouched(old(mem), mem, LiveOf(cs))
      ensures v in cs && cs[v].size == old(ix.sizes)[v]
    {
      hide Good, IndexOk, OnlyLinks, Untouched, LiveOf;
      ghost var h0 := State();
      assert Indexed() by { GoodIndex(h0, {}); }
      BinnedSize(h0, {}, v);
      UnlinkLargeChunk(v);
      UnlinkedGood(h0, State(), v, {});
      assert {} + {v} == {v};
    }

    /** `unlink_large_chunk` and the carving that follows it in `tmalloc_small` and `tmalloc_large`. */
    method CarveLarge(v: int, size: int, rsize: int, ghost req: int) returns (r: int)
      requires Good(State(), {}) && v in ix.loc && v in ix.sizes && ix.sizes[v] == size + rsize
      requires Fits(req, size) && rsize >= 0
      modifies `mem, `treemap, `ix, `cs
      ensures r == (if rsize < MIN_CHUNK_SIZE then 0 else v + size)
      ensures Good(State(), if r == 0 then {} else {r})
      ensures r != 0 ==> r in cs && cs[r].size == rsize
      ensures Allocated(old(State()), State(), v, req, size)
    {
      hide Good, Untouched, LiveOf, Allocated, Fits;
      ghost var h0 := State();
      TakeLarge(v);
      ghost var h1 := State();
      r := Carve(v, size, rsize, req);
      AllocatedAfter(h0, h1, State(), v, req, size);
    }

    /** `tmalloc_small`, lines 917-949 */
    method TmallocSmall(size: int, ghost req: int) returns (r: int)
      requires Good(State(), {}) && Fits(req, size) && size < MIN_LARGE_SIZE && treemap != 0 && IsSmall(dvsize)
      modifies `mem, `smallmap, `treemap, `ix, `cs, `dv, `dvsize
      ensures Good(State(), {}) && Allocated(old(State()), State(), r - MEM_OFFSET, req, size)
      ensures BestFitting(old(ix), size, r - MEM_OFFSET) && r != MEM_OFFSET
      ensures RemainderKept(old(State()), State(), size, r - MEM_OFFSET)
    {
      hide Good, IndexOk, Untouched, LiveOf, Allocated, IsSmall;
      ghost var h0 := State();
      GoodIndex(h0, {});
      var v, rsize := BestSmall(size);
      var rest := CarveLarge(v, size, rsize, req);
      AllocatedAt(h0, State(), v, req, size);
      FitsPositive(req, size);
      if rest != 0 {
        ghost var h1 := State();
        ReplaceDv(rest, rsize);
        AllocatedThen(h0, h1, State(), v, req, size);
      }
      r := v + MEM_OFFSET;
    }

    /** `tmalloc_large`, lines 951-1023 */
    method TmallocLarge(size: int, ghost req: int) returns (r: int)
      requires Good(State(), {}) && Fits(req, size) && MIN_LARGE_SIZE <= size < WORD_LIMIT
      modifies `mem, `smallmap, `treemap, `ix, `cs
      ensures Good(State(), {})
      ensures r == 0 ==> State() == old(State())
      ensures r != 0 ==> Allocated(old(State()), State(), r - MEM_OFFSET, req, size)
      ensures r != 0 ==> BestFitting(old(ix), size, r - MEM_OFFSET)
      ensures r != 0 && dvsize >= size ==> old(ix.sizes)[r - MEM_OFFSET] < dvsize
      ensures r == 0 ==> BestFitting(ix, size, 0) || DvFitsBest(ix, size, dvsize)
      ensures 0 <= TreeIndex(size) < 32
      ensures var pick := Chosen(old(ix), old(treemap), size);
        if Taken(pick, size, dvsize) then r == pick.v + MEM_OFFSET else r == 0
    {
      hide Good, IndexOk, Untouched, LiveOf, Allocated, Chosen, TreeIndex;
      ghost var h0 := State();
      GoodIndex(h0, {});
      var v, rsize := BestLarge(size);
      if v == 0 || (dvsize >= size && !(rsize < dvsize - size)) {
        return 0;
      }
      var rest := CarveLarge(v, size, rsize, req);
      AllocatedAt(h0, State(), v, req, size);
      if rest != 0 {
        ghost var h1 := State();
        PutInBin(rest, rsize, {rest});
        assert {rest} - {rest} == {};
        AllocatedThen(h0, h1, State(), v, req, size);
      }
      r := v + MEM_OFFSET;
    }

    /** `unlink_first_small_chunk` on a good heap: the last chunk of bin `i` is in hand afterwards. */
    method TakeFirstSmall(i: int) returns (p: int)
      requires Good(State(), {}) && 0 <= i < 32 && Bit(smallmap, i)
      modifies `mem, `smallmap, `ix
      ensures Good(State(), {p}) && Untouched(old(mem), mem, LiveOf(cs))
      ensures p in cs && cs[p].size == 8 * i && p in old(ix.sizes) && old(ix.sizes)[p] == 8 * i
      ensures Newest(old(ix), p)
    {
      hide Good, IndexOk, OnlyLinks, Untouched, LiveOf, Bit;
      ghost var h0 := State();
      assert Indexed() by { GoodIndex(h0, {}); }
      ReadSmallBin(mem, smallmap, treemap, ix, i);
      var b := SmallBinAt(i);
      p := mem[b + PREV];
      UnlinkFirstSmallChunk(b, p, i);
      BinnedSize(h0, {}, p);
      UnlinkedGood(h0, State(), p, {});
      assert {} + {p} == {p};
    }

    /** The first branch of `malloc`, lines 334-347: the whole of a chunk from bin `i`. */
    method MallocFromNearBin(i: int, nb: int, ghost req: int) returns (r: int)
      requires Good(State(), {}) && 0 <= i < 32 && Bit(smallmap, i) && Fits(req, nb) && nb <= 8 * i <= nb + 8
      modifies `mem, `smallmap, `ix, `cs
      ensures Good(State(), {}) && Allocated(old(State()), State(), r - MEM_OFFSET, req, nb)
      ensures r - MEM_OFFSET in old(ix.sizes) && old(ix.sizes)[r - MEM_OFFSET] == 8 * i
      ensures Newest(old(ix), r - MEM_OFFSET)
    {
      hide Good, Untouched, LiveOf, Allocated, Bit, Fits;
      ghost var h0 := State();
      var p := TakeFirstSmall(i);
      ghost var h1 := State();
      UseWhole(p, 8 * i, nb, req);
      AllocatedAfter(h0, h1, State(), p, req, nb);
      r := p + MEM_OFFSET;
    }

    /** The second branch of `malloc`, lines 352-372: the front of a chunk from bin `i`. */
    method MallocFromNextBin(i: int, nb: int, ghost req: int) returns (r: int)
      requires Good(State(), {}) && 0 <= i < 32 && Bit(smallmap, i) && Fits(req, nb) && nb <= 8 * i && dvsize < nb
      modifies `mem, `smallmap, `ix, `cs, `dv, `dvsize
      ensures Good(State(), {}) && Allocated(old(State()), State(), r - MEM_OFFSET, req, nb)
      ensures r - MEM_OFFSET in old(ix.sizes) && old(ix.sizes)[r - MEM_OFFSET] == 8 * i
      ensures Newest(old(ix), r - MEM_OFFSET)
      ensures RemainderKept(old(State()), State(), nb, r - MEM_OFFSET)
    {
      hide Good, Untouched, LiveOf, Allocated, Bit, Fits;
      ghost var h0 := State();
      var p := TakeFirstSmall(i);
      ghost var h1 := State();
      var rest := Carve(p, nb, 8 * i - nb, req);
      AllocatedAfter(h0, h1, State(), p, req, nb);
      AllocatedAt(h0, State(), p, req, nb);
      FitsPositive(req, nb);
      if rest != 0 {
        ghost var h2 := State();
        ReplaceDv(rest, 8 * i - nb);
        AllocatedThen(h0, h2, State(), p, req, nb);
      }
      r := p + MEM_OFFSET;
    }

    /** Lines 399-418 of `malloc`: the front of the designated victim, or all of it. */
    method MallocFromVictim(nb: int, ghost req: int) returns (r: int)
      requires Good(State(), {}) && Fits(req, nb) && nb <= dvsize
      modifies `mem, `cs, `dv, `dvsize
      ensures Good(State(), {}) && Allocated(old(State()), State(), r - MEM_OFFSET, req, nb)
      ensures r - MEM_OFFSET == old(dv)
      ensures if old(dvsize) - nb >= MIN_CHUNK_SIZE then dv == old(dv) + nb && dvsize == old(dvsize) - nb
        else dv == 0 && dvsize == 0
    {
      hide Good, Allocated, Fits, Retile;
      ghost var h0 := State();
      var rsize := dvsize - nb;
      var p := dv;
      if rsize >= MIN_CHUNK_SIZE {
        SplitVictim(h0, nb, req);
        dv := p + nb;
        dvsize := rsize;
        var rest := dv;
        mem := SetSizeAndPinuseOfFreeChunk(mem, rest, rsize);
        mem := SetSizeAndPinuseOfInuseChunk(mem, p, nb);
        cs := VictimSplit(h0, nb, req).cs;
      } else {
        UseVictim(h0, nb, req);
        var dvs := dvsize;
        dvsize := 0;
        dv := 0;
        mem := SetInuseAndPinuse(mem, p, dvs);
        cs := VictimWhole(h0, req).cs;
      }
      r := p + MEM_OFFSET;
    }

    /** The front of top, lines 421-434 of `malloc` and lines 501-514 of `sys_alloc`. */
    method MallocFromTop(nb: int, ghost req: int) returns (r: int)
      requires Good(State(), {}) && Fits(req, nb) && nb < topsize
      modifies `mem, `cs, `top, `topsize
      ensures Good(State(), {}) && Allocated(old(State()), State(), r - MEM_OFFSET, req, nb)
      ensures r - MEM_OFFSET == old(top) && top == old(top) + nb && topsize == old(topsize) - nb
    {
      hide Good, Allocated, Fits, Retile;
      ghost var h0 := State();
      UseTop(h0, nb, req);
      topsize := topsize - nb;
      var rsize := topsize;
      var p := top;
      top := p + nb;
      var rest := top;
      mem := mem[rest + HEAD := Head(rsize, true, false)];
      mem := SetSizeAndPinuseOfInuseChunk(mem, p, nb);
      cs := TopSplit(h0, nb, req).cs;
      r := p + MEM_OFFSET;
    }

    // ---------- freeing ----------

    /** The state while `p` may be the designated victim that is being extended. */
    ghost function WithoutVictim(p: int): Heap
      reads this
    {
      if p == dv then NoVictim(State()) else State()
    }

    /** The chunk before the block `p0` is the designated victim. */
    ghost predicate VictimGrows(p: int, p0: int)
      reads this
    {
      p < p0 && p != 0 && p in cs && dvsize == cs[p].size
    }

    /**
     The consolidation that `free` (lines 1270-1332) and `dispose_chunk` (lines 721-779) have in common: merges the
     block with its free neighbours and, unless the result becomes top or the designated victim, returns it.
     */
    method Coalesce(p0: int, psize0: int) returns (where: Outcome)
      requires Good(State(), {}) && p0 in cs && cs[p0].kind.Live? && cs[p0].size == psize0
      modifies `mem, `smallmap, `treemap, `ix, `cs, `dv, `dvsize, `top, `topsize
      ensures Freed(old(State()), State(), p0)
      ensures Good(State(), if where.ToBin? then {where.chunk} else {})
      ensures where.ToBin? ==> where.chunk in cs && cs[where.chunk].size == where.size
      ensures where.InTop? ==>
        p0 + psize0 == old(top) && top + topsize == old(top + topsize) && top == old(FreeFrom(State(), p0))
      ensures !where.InTop? ==> top == old(top) && topsize == old(topsize)
      ensures where.InTop? <==> p0 + psize0 == old(top)
      ensures where.InVictim? <==> old(MergesVictim(State(), p0))
      ensures where.ToBin? ==> where.size == old(FreeTo(State(), p0) - FreeFrom(State(), p0))
      ensures VictimFreed(old(State()), dv, p0, [])
    {
      hide Good, Merging, Untouched, LiveOf, FreedRun, MergesVictim, VictimFreed, FreeFrom, FreeTo;
      ghost var h0, h1 := State(), State();
      var p, psize, n := p0, psize0, p0 + psize0;
      FreeSpan(h0, p0);
      ReadTags(h0, {}, p0);
      UntouchedSelf(h0, {});
      if !Pinuse(mem[p + HEAD]) {
        FindPrev(h0, p0);
        var prevsize := mem[p];
        assert !Mmapped(mem[p + HEAD]);
        ChunkEnds(h0, {}, p - prevsize);
        ChunkEnds(h0, {}, p);
        p := p - prevsize;
        psize := Plus(psize, prevsize);
        if p != dv {
          TakeFromBin(p, prevsize, {});
          assert {} + {p} == {p};
          h1 := State();
          MergePrev(h0, h1, p, p0);
        } else {
          VictimToHole(h0, {});
          assert {} + {p} == {p};
          h1 := NoVictim(h0);
          MergePrev(h0, h1, p, p0);
          MergeReads(h0, h1, p, n, p0);
          if InuseBits(mem[n + HEAD]) == 3 {
            ExtendVictim(p, psize, n, h0, p0);
            return InVictim;
          }
        }
      } else {
        MergeNone(h0, p0);
        WhereFree(h0, {}, p0);
      }
      MergeReads(h0, h1, p, n, p0);
      where := MergeAfter(p, psize, n, h0, p0);
    }

    /** The designated victim `p` takes in the block behind it, lines 1292-1296. */
    method ExtendVictim(p: int, psize: int, n: int, ghost h0: Heap, ghost p0: int)
      requires Merging(h0, NoVictim(State()), p, n, p0) && p == dv && psize == n - p
      requires n in cs && Used(cs[n].kind)
      modifies `mem, `cs, `dvsize
      ensures Freed(h0, State(), p0) && Good(State(), {})
    {
      hide Good, Merging, Untouched, LiveOf, Retile;
      ghost var h1 := NoVictim(State());
      MergingGood(h0, h1, p, n, p0);
      FinishUsed(h0, h1, p, n, p0);
      HoleToVictim(FreedRun(h1, p, n), {p}, p);
      assert {p} - {p} == {};
      dvsize := psize;
      mem := SetFreeWithPinuse(mem, p, psize, n);
      cs := FreedRun(h1, p, n).cs;
    }

    /** Consolidation with the chunk `n` behind the block, lines 1300-1332. */
    method MergeAfter(p: int, psize: int, n: int, ghost h0: Heap, ghost p0: int) returns (where: Outcome)
      requires Merging(h0, WithoutVictim(p), p, n, p0) && psize == n - p && n + HEAD in mem
      requires p == dv ==> !Cinuse(mem[n + HEAD]) && VictimGrows(p, p0)
      modifies `mem, `smallmap, `treemap, `ix, `cs, `dv, `dvsize, `top, `topsize
      ensures Freed(h0, State(), p0)
      ensures Good(State(), if where.ToBin? then {where.chunk} else {})
      ensures where.ToBin? ==> where.chunk in cs && cs[where.chunk].size == where.size
      ensures where.InTop? ==> n == old(top) && top + topsize == old(top + topsize) && top == p
      ensures !where.InTop? ==> top == old(top) && topsize == old(topsize)
      ensures where.InTop? <==> n == old(top)
      ensures n != old(top) ==> (where.InVictim? <==> p == old(dv) || n == old(dv))
      ensures where.ToBin? ==> where.size == FreeTo(h0, p0) - p
      ensures dv == if where.InVictim? then p else if p == old(dv) then 0 else old(dv)
    {
      hide Good, Merging, Untouched, LiveOf, Retile;
      ghost var h1 := WithoutVictim(p);
      MergeReads(h0, h1, p, n, p0);
      if !Cinuse(mem[n + HEAD]) {
        if n == top {
          FinishTop(h0, h1, p, n, p0);
          cs := TopRun(h1, p, n + topsize).cs;
          topsize := Plus(topsize, psize);
          var tsize := topsize;
          top := p;
          mem := mem[p + HEAD := Head(tsize, true, false)];
          if p == dv {
            dv := 0;
            dvsize := 0;
          }
          return InTop;
        } else if n == dv {
          JoinVictim(p, psize, n, h0, p0);
          return InVictim;
        } else {
          where := JoinBinned(p, psize, n, h0, p0);
        }
      } else {
        FinishUsed(h0, h1, p, n, p0);
        mem := SetFreeWithPinuse(mem, p, psize, n);
        cs := FreedRun(h1, p, n).cs;
        where := ToBin(p, psize);
      }
    }

    /** The block is merged into the designated victim behind it, lines 1314-1319. */
    method JoinVictim(p: int, psize: int, n: int, ghost h0: Heap, ghost p0: int)
      requires Merging(h0, State(), p, n, p0) && psize == n - p && n in cs && n == dv && dv != 0
      modifies `mem, `cs, `dv, `dvsize
      ensures Freed(h0, State(), p0) && Good(State(), {}) && dv == p
    {
      hide Good, Merging, Untouched, LiveOf, Retile;
      ghost var h1 := State();
      ghost var holes := Merged(p, p0) - {p0};
      MergingGood(h0, h1, p, n, p0);
      VictimReads(h1, holes);
      VictimToHole(h1, holes);
      ghost var h2 := NoVictim(h1);
      FinishNext(h0, h1, h2, p, n, p0);
      HoleToVictim(FreedRun(h2, p, n + dvsize), {p}, p);
      assert {p} - {p} == {};
      ChunkEnds(h1, holes, n);
      MergeReads(h0, h1, p, n, p0);
      cs := FreedRun(h2, p, n + dvsize).cs;
      dvsize := Plus(dvsize, psize);
      var dsize := dvsize;
      dv := p;
      mem := SetSizeAndPinuseOfFreeChunk(mem, p, dsize);
    }

    /** The block is merged with the binned chunk behind it, lines 1320-1329. */
    method JoinBinned(p: int, psize: int, n: int, ghost h0: Heap, ghost p0: int) returns (where: Outcome)
      requires Merging(h0, WithoutVictim(p), p, n, p0) && psize == n - p && n in cs && n in ix.sizes
      requires p == dv ==> VictimGrows(p, p0)
      modifies `mem, `smallmap, `treemap, `ix, `cs, `dvsize
      ensures Freed(h0, State(), p0)
      ensures Good(State(), if where.ToBin? then {where.chunk} else {})
      ensures !where.InTop? && (where.ToBin? ==> where.chunk in cs && cs[where.chunk].size == where.size)
      ensures (where.InVictim? <==> p == dv) && (where.ToBin? ==> where.size == FreeTo(h0, p0) - p)
    {
      hide Good, Merging, Untouched, LiveOf, Retile, FreeTo;
      ghost var h1 := WithoutVictim(p);
      ghost var victim := p == dv;
      ghost var holes := Merged(p, p0) - {p0};
      MergingGood(h0, h1, p, n, p0);
      MergeReads(h0, h1, p, n, p0);
      if victim {
        HoleToVictim(h1, {p}, p);
        assert {p} - {p} == {} && {} + {n} == {n} && {n} + {p} == {p} + {n};
      }
      var nsize := Size(mem[n + HEAD]);
      var size := Plus(psize, nsize);
      TakeFromBin(n, nsize, if victim then {} else holes);
      if victim {
        VictimToHole(State(), {n});
      }
      ghost var h2 := WithoutVictim(p);
      FinishNext(h0, h1, h2, p, n, p0);
      FreeBehind(h0, p0);
      mem := SetSizeAndPinuseOfFreeChunk(mem, p, size);
      cs := FreedRun(h2, p, n + nsize).cs;
      if p == dv {
        HoleToVictim(FreedRun(h2, p, n + nsize), {p}, p);
        dvsize := size;
        return InVictim;
      }
      where := ToBin(p, size);
    }

    // ---------- the system's side ----------

    /**
     The system allocator: it refuses, or supplies a region of at least `size` bytes that was not held before, in
     multiples of 16 bytes or of whole pages, within its capacity. What the region contains is arbitrary.
     */
    method SystemAlloc(size: int) returns (base: int, tsize: int, flags: int)
      requires size >= LEAST_REGION
      modifies `mem, `denials, `traffic
      ensures traffic == old(traffic) + [AskedFor(size, base, tsize)] && (base == 0 ==> tsize == 0)
      ensures flags == 0
      ensures base == 0 ==> mem == old(mem) && denials == old(denials) + 1
      ensures base != 0 ==> Region(old(mem), mem, base, tsize, size) && denials == old(denials)
      ensures base != 0 && paged ==> tsize % MIN_REGION == 0
      ensures base != 0 ==> footprint + tsize <= capacity
    {
      var supplied: map<int, int>;
      base, tsize, supplied, flags := *, *, *, 0;
      if
        && base != 0 && RegionFits(base, tsize, size) && (!paged || tsize % MIN_REGION == 0)
        && footprint + tsize <= capacity
        && supplied.Keys == (set w | base <= w < base + tsize && InSeg(Seg(base, tsize, 0), w))
        && supplied.Keys !! mem.Keys
      {
        mem := mem + supplied;
      } else {
        base, tsize := 0, 0;
        denials := denials + 1;
      }
      traffic := traffic + [AskedFor(size, base, tsize)];
    }

    /** The system takes a region back, or declines to. */
    method SystemFree(base: int, size: int) returns (ok: bool)
      requires forall w :: base <= w < base + size ==> w in mem
      modifies `mem, `traffic
      ensures ok ==> Shrunk(old(mem), mem, base, base + size)
      ensures !ok ==> mem == old(mem)
      ensures traffic == old(traffic) + [Offered(base, size, ok)]
    {
      ok := *;
      traffic := traffic + [Offered(base, size, ok)];
      if ok {
        mem := map w | w in mem && !(base <= w < base + size) :: mem[w];
      }
    }

    /** The system takes back the end of a region, or declines to. */
    method SystemFreePart(base: int, oldsize: int, newsize: int) returns (ok: bool)
      requires newsize <= oldsize && forall w :: base + newsize <= w < base + oldsize ==> w in mem
      modifies `mem, `traffic
      ensures ok ==> Shrunk(old(mem), mem, base + newsize, base + oldsize)
      ensures !ok ==> mem == old(mem)
      ensures traffic == old(traffic) + [OfferedPart(base, oldsize, newsize, ok)]
    {
      ok := *;
      traffic := traffic + [OfferedPart(base, oldsize, newsize, ok)];
      if ok {
        mem := map w | w in mem && !(base + newsize <= w < base + oldsize) :: mem[w];
      }
    }

    /** `can_release_part`: the answer may differ from call to call on a system that releases at all. */
    method CanReleasePart(flags: int) returns (ok: bool)
      modifies `traffic
      ensures ok ==> releases
      ensures traffic == old(traffic) + [MayRelease(ok)]
    {
      ok := *;
      ok := ok && releases;
      traffic := traffic + [MayRelease(ok)];
    }

    // ---------- walking the segment list ----------

    /** The first segment that ends at `addr`, lines 471-474. */
    method SegmentEndingAt(addr: int) returns (sp: int, ghost i: int)
      requires Linked(mem, segs)
      ensures 0 <= i <= |segs| && sp == RecAt(segs, i)
      ensures i < |segs| ==> End(segs[i]) == addr
      ensures forall j :: 0 <= j < i ==> End(segs[j]) != addr
    {
      sp, i := SEG, 0;
      while sp != 0
        invariant 0 <= i <= |segs| && sp == RecAt(segs, i)
        invariant forall j :: 0 <= j < i ==> End(segs[j]) != addr
        decreases |segs| - i
      {
        ReadRecord(mem, segs, i);
        if addr == Plus(mem[sp], mem[sp + SEG_SIZE]) {
          return;
        }
        sp := mem[sp + SEG_NEXT];
        i := i + 1;
      }
      EndOfList(mem, segs, i);
    }

    /** The first segment that starts at `addr`, lines 486-489. */
    method SegmentStartingAt(addr: int) returns (sp: int, ghost i: int)
      requires Linked(mem, segs)
      ensures 0 <= i <= |segs| && sp == RecAt(segs, i)
      ensures i < |segs| ==> segs[i].base == addr
      ensures forall j :: 0 <= j < i ==> segs[j].base != addr
    {
      sp, i := SEG, 0;
      while sp != 0
        invariant 0 <= i <= |segs| && sp == RecAt(segs, i)
        invariant forall j :: 0 <= j < i ==> segs[j].base != addr
        decreases |segs| - i
      {
        ReadRecord(mem, segs, i);
        if mem[sp] == addr {
          return;
        }
        sp := mem[sp + SEG_NEXT];
        i := i + 1;
      }
      EndOfList(mem, segs, i);
    }

    /** `segment_holding`, lines 906-915 */
    method SegmentHolding(ptr: int) returns (sp: int, ghost i: int)
      requires Linked(mem, segs)
      ensures 0 <= i <= |segs| && sp == RecAt(segs, i)
      ensures i < |segs| ==> InSeg(segs[i], ptr)
      ensures forall j :: 0 <= j < i ==> !InSeg(segs[j], ptr)
      ensures sp != 0 <==> exists j :: 0 <= j < |segs| && InSeg(segs[j], ptr)
    {
      sp, i := SEG, 0;
      while sp != 0
        invariant 0 <= i <= |segs| && sp == RecAt(segs, i)
        invariant forall j :: 0 <= j < i ==> !InSeg(segs[j], ptr)
        decreases |segs| - i
      {
        ReadRecord(mem, segs, i);
        if mem[sp] <= ptr && ptr < Plus(mem[sp], mem[sp + SEG_SIZE]) {
          return;
        }
        sp := mem[sp + SEG_NEXT];
        i := i + 1;
      }
      EndOfList(mem, segs, i);
    }

    /** `has_segment_link`, lines 1395-1404: whether some record lies in the segment `k`. */
    method HasSegmentLink(ptr: int, ghost k: int) returns (found: bool)
      requires Linked(mem, segs) && 0 <= k < |segs| && ptr == segs[k].rec
      ensures found <==> exists i :: 0 <= i < |segs| && InSeg(segs[k], segs[i].rec)
    {
      var sp := SEG;
      ghost var i := 0;
      ReadRecord(mem, segs, k);
      while sp != 0
        invariant 0 <= i <= |segs| && sp == RecAt(segs, i)
        invariant forall j :: 0 <= j < i ==> !InSeg(segs[k], segs[j].rec)
        decreases |segs| - i
      {
        ReadRecord(mem, segs, i);
        if mem[ptr] <= sp && sp < Plus(mem[ptr], mem[ptr + SEG_SIZE]) {
          assert InSeg(segs[k], segs[i].rec);
          return true;
        }
        sp := mem[sp + SEG_NEXT];
        i := i + 1;
      }
      EndOfList(mem, segs, i);
      found := false;
    }

    // ---------- getting memory from the system ----------

    /** `init_top`, lines 781-791 */
    method InitTop(ptr: int, size: int)
      requires ptr % 16 == 0 && ptr + HEAD in mem && ptr + size + HEAD in mem
      modifies `mem, `top, `topsize, `trimCheck
      ensures mem == TopMade(old(mem), ptr, size) && mem.Keys == old(mem).Keys
      ensures top == ptr && topsize == size && trimCheck == DEFAULT_TRIM_THRESHOLD
    {
      var offset := AlignOffset(ptr + MEM_OFFSET);
      var p := ptr + offset;
      var rest := size - offset;
      top := p;
      topsize := rest;
      mem := mem[p + HEAD := Head(rest, true, false)];
      mem := mem[p + rest + HEAD := TOP_FOOT_SIZE];
      trimCheck := DEFAULT_TRIM_THRESHOLD;
    }

    /** `init_bins`, lines 793-799 */
    method InitBins()
      modifies `mem
      ensures mem == BinsMade(old(mem), 32)
    {
      var i := 0;
      while i < 32
        invariant 0 <= i <= 32 && mem == BinsMade(old(mem), i)
      {
        var bin := SmallBinAt(i);
        mem := mem[bin + NEXT := bin];
        mem := mem[bin + PREV := bin];
        i := i + 1;
      }
    }

    /** `release_check_target`, lines 190-196 */
    function ReleaseCheckTarget(): (r: int)
      reads `maxReleaseCheckRate
      ensures r == if maxReleaseCheckRate == 0 then 0xFFFF_FFFF_FFFF_FFFF else maxReleaseCheckRate
    {
      if maxReleaseCheckRate == 0 then WORD_LIMIT - 1 else maxReleaseCheckRate
    }

    /** The first region, lines 460-466 of `sys_alloc`. */
    method FirstSegment(tbase: int, tsize: int, flags: int, ghost size: int, ghost h0: Heap)
      requires Good(h0, {}) && h0.top == 0 && State() == h0.(m := mem) && flags == 0 && maxReleaseCheckRate >= 0
      requires Region(h0.m, mem, tbase, tsize, size + SYS_PADDING) && size >= 0
      modifies `mem, `top, `topsize, `trimCheck, `releaseChecks, `cs, `segs
      ensures Good(State(), {}) && releaseChecks == ReleaseCheckTarget() && size < topsize
      ensures trimCheck == DEFAULT_TRIM_THRESHOLD
      ensures segs == [Seg(tbase, tsize, SEG)] && top == tbase && topsize == tsize - TOP_FOOT_SIZE
      ensures LiveOf(cs) == LiveOf(h0.cs) && Untouched(h0.m, mem, LiveOf(h0.cs))
      ensures Total(segs) == Total(h0.segs) + tsize && SizesKept(h0.segs, segs, tsize)
    {
      hide Good, LiveOf, BinsMade, TopMade, Region, RegionFits, Untouched, Total;
      ghost var m1 := mem;
      RegionIs(h0.m, m1, tbase, tsize, size + SYS_PADDING);
      FirstHeld(h0, m1, tbase, tsize);
      mem := mem[SEG := tbase];
      mem := mem[SEG + SEG_SIZE := tsize];
      mem := mem[SEG + SEG_FLAGS := flags];
      releaseChecks := ReleaseCheckTarget();
      InitBins();
      var rest := tsize - TOP_FOOT_SIZE;
      InitTop(tbase, rest);
      FirstGood(h0, m1, mem, tbase, tsize);
      cs := FirstHeap(h0, mem, tbase, tsize).cs;
      segs := [Seg(tbase, tsize, SEG)];
      FirstUntouched(h0, State(), tbase, tsize);
    }

    /** The region lies behind the head segment, lines 480-483 of `sys_alloc`. */
    method AppendRegion(tsize: int, ghost h0: Heap)
      requires Good(h0, {}) && h0.top != 0 && h0.segs != [] && State() == h0.(m := mem)
      requires Region(h0.m, mem, End(h0.segs[0]), tsize, 0)
      modifies `mem, `top, `topsize, `trimCheck, `cs, `segs
      ensures Good(State(), {}) && LiveOf(cs) == LiveOf(h0.cs) && Untouched(h0.m, mem, LiveOf(h0.cs))
      ensures top == h0.top && topsize == h0.topsize + tsize && trimCheck == DEFAULT_TRIM_THRESHOLD
      ensures segs == h0.segs[0 := h0.segs[0].(size := h0.segs[0].size + tsize)]
      ensures Total(segs) == Total(h0.segs) + tsize && SizesKept(h0.segs, segs, tsize)
    {
      hide Good, LiveOf, TopMade, Region, RegionFits, MoveEnd, CanMove, EndMoved, TopWrites, Linked, Untouched, Grown,
           SizesKept, Total;
      ghost var m1, f', e := mem, h0.top + h0.topsize + tsize, End(h0.segs[0]);
      RegionIs(h0.m, m1, e, tsize, 0);
      GoodLinked(h0, {});
      LinkedGrown(h0.m, m1, segs, e, e + tsize);
      ReadRecord(mem, segs, 0);
      Tail(h0, {});
      AppendHeld(h0, m1, tsize);
      mem := mem[SEG + SEG_SIZE := Plus(mem[SEG + SEG_SIZE], tsize)];
      var ptr := top;
      var size := Plus(topsize, tsize);
      InitTop(ptr, size);
      assert mem == TopWrites(m1, h0.segs[0].size + tsize, h0.top, h0.topsize + tsize) by {
        TopWritesIs(m1, h0, tsize);
      }
      AppendCan(h0, m1, mem, tsize);
      EndMovedFields(h0, mem, f');
      MoveEndGood(h0, mem, f');
      PagedGrow(h0.segs, 0, h0.segs[0].(size := f' + TOP_FOOT_SIZE - h0.segs[0].base), tsize);
      TotalUpdate(h0.segs, 0, h0.segs[0].(size := f' + TOP_FOOT_SIZE - h0.segs[0].base));
      cs := EndMoved(h0, mem, f').cs;
      segs := EndMoved(h0, mem, f').segs;
    }

    /** The trailing fenceposts of `add_segment`, lines 880-891: the head of a fencepost every eight bytes. */
    method InsertFences(tnext: int, oldEnd: int) returns (nfences: int)
      requires tnext + 32 <= oldEnd && (oldEnd - tnext) % 8 == 0 && forall w :: tnext <= w < oldEnd ==> w in mem
      modifies `mem
      ensures mem.Keys == old(mem).Keys && mem[tnext + HEAD] == FENCEPOST_HEAD
      ensures forall w :: w in mem && tnext < w < oldEnd && (w - tnext) % 8 == 0 ==> mem[w] == FENCEPOST_HEAD
      ensures forall w :: w in mem && !(tnext + HEAD <= w < oldEnd) ==> mem[w] == old(mem)[w]
      ensures nfences >= 2 && tnext + 8 * nfences + 8 == oldEnd
    {
      var p := tnext;
      nfences := 0;
      while true
        invariant p == tnext + 8 * nfences && nfences >= 0 && p + HEAD < oldEnd
        invariant mem.Keys == old(mem).Keys && (nfences > 0 ==> mem[tnext + HEAD] == FENCEPOST_HEAD)
        invariant forall w :: w in mem && tnext < w <= p && (w - tnext) % 8 == 0 ==> mem[w] == FENCEPOST_HEAD
        invariant forall w :: w in mem && !(tnext + HEAD <= w < oldEnd) ==> mem[w] == old(mem)[w]
        decreases oldEnd - p
      {
        var nextp := p + 8;
        mem := mem[p + HEAD := FENCEPOST_HEAD];
        nfences := nfences + 1;
        if nextp + HEAD < oldEnd {
          p := nextp;
        } else {
          break;
        }
      }
    }

    /** The record of the old head segment is copied to `ss` and the new one takes its place, lines 874-878. */
    method PushRecord(ss: int, tbase: int, tsize: int, flags: int, ghost h0: Heap)
      requires Linked(mem, h0.segs) && flags == 0 && ss >= STRUCT_END && RecordWords(mem, ss)
      modifies `mem
      ensures mem.Keys == old(mem).Keys
      ensures RecordIs(mem, ss, h0.segs[0].base, h0.segs[0].size, RecAt(h0.segs, 1))
      ensures RecordIs(mem, SEG, tbase, tsize, ss)
      ensures forall w :: w in mem && !(SEG <= w < STRUCT_END) && !(ss <= w < ss + 32) ==> mem[w] == old(mem)[w]
    {
      hide Linked;
      HeadRec(mem, h0.segs);
      hide RecordIs, CopyRecord, WriteRecord;
      assert RecordIs(mem, SEG, h0.segs[0].base, h0.segs[0].size, RecAt(h0.segs, 1)) by { HeadIs(mem, h0.segs); }
      CopyWords(mem, SEG, ss, h0.segs[0].base, h0.segs[0].size, RecAt(h0.segs, 1));
      mem := CopyRecord(mem, SEG, ss);
      WriteWords(mem, SEG, tbase, tsize, ss);
      SameRecordIs(mem, WriteRecord(mem, SEG, tbase, tsize, 0, ss), ss, h0.segs[0].base, h0.segs[0].size,
                   RecAt(h0.segs, 1));
      mem := WriteRecord(mem, SEG, tbase, tsize, flags, ss);
    }

    /** Where `add_segment` puts the record of the old head segment, lines 848-860. */
    method PlaceOfRecord(oldTop: int, ghost h0: Heap) returns (oldEnd: int, csp: int)
      requires Good(h0, {}) && h0.top != 0 && Linked(mem, h0.segs) && segs == h0.segs && oldTop == h0.top
      ensures h0.segs != [] && oldEnd == End(h0.segs[0]) && csp == RecordAt(h0.top, h0.top + h0.topsize)
      ensures (oldEnd - (csp + RECORD_SIZE)) % 8 == 0
    {
      hide Good, Linked;
      RecordAtEnd(h0);
      Tail(h0, {});
      var oldsp: int;
      ghost var i: int;
      oldsp, i := SegmentHolding(oldTop);
      HeadFirst(h0, i);
      ReadRecord(mem, segs, 0);
      oldEnd := Plus(mem[oldsp], mem[oldsp + SEG_SIZE]);
      var ssize := PadRequest(4 * WORD_BYTES);
      var offset := ssize + WORD_BYTES * 4 + MALLOC_ALIGNMENT - 1;
      var rawsp := oldEnd - offset;
      var asp := rawsp + AlignOffset(rawsp + MEM_OFFSET);
      assert ssize == RECORD_SIZE && asp == h0.top + h0.topsize by { AlignedEnd(oldEnd); }
      csp := if asp < oldTop + MIN_CHUNK_SIZE then oldTop else asp;
      FenceWords(oldEnd, csp);
    }

    /** Lines 844-891 of `add_segment`: everything up to the old top, which is still to be made a free chunk. */
    method CloseSegment(tbase: int, tsize: int, flags: int, ghost h0: Heap) returns (oldTop: int, csp: int)
      requires Good(h0, {}) && h0.top != 0 && State() == h0.(m := mem) && flags == 0
      requires Region(h0.m, mem, tbase, tsize, 0)
      modifies `mem, `top, `topsize, `trimCheck
      ensures oldTop == h0.top && csp == RecordAt(h0.top, h0.top + h0.topsize)
      ensures FencesDone(h0, old(mem), mem, tbase, tsize) && top == tbase && topsize == tsize - TOP_FOOT_SIZE
      ensures trimCheck == DEFAULT_TRIM_THRESHOLD
      ensures csp != oldTop ==> csp + HEAD in mem && csp in mem && oldTop + HEAD in mem
    {
      hide Good, Linked, Region, RegionFits, TopMade, RecordAt, FencesDone, RecordIs, Grown, TailAt,
           SetSizeAndPinuseOfInuseChunk, PadRequest, AlignOffset;
      ghost var m1 := mem;
      RegionIs(h0.m, m1, tbase, tsize, 0);
      GoodLinked(h0, {});
      LinkedGrown(h0.m, m1, segs, tbase, tbase + tsize);
      oldTop := top;
      var oldEnd: int;
      oldEnd, csp := PlaceOfRecord(oldTop, h0);
      CloseHeld(h0, m1, tbase, tsize, csp);
      var ssize := PadRequest(4 * WORD_BYTES);
      var ss := csp + MEM_OFFSET;
      var tnext := csp + ssize;
      assert ssize == RECORD_SIZE by { LayoutConstants(); }
      var size := tsize - TOP_FOOT_SIZE;
      InitTop(tbase, size);
      mem := SetSizeAndPinuseOfInuseChunk(mem, csp, ssize);
      ghost var m2 := mem;
      TopAndRecord(m1, tbase, size, csp, ssize);
      LinkedMisses(h0, m1, m2, tbase, tsize, csp);
      assert forall w :: h0.top <= w < oldEnd ==> w in mem;
      PushRecord(ss, tbase, tsize, flags, h0);
      ghost var m3 := mem;
      var nfences := InsertFences(tnext, oldEnd);
      assert nfences >= 2;
      assert CloseSteps(h0, m1, m2, m3, mem, tbase, tsize, csp);
      CloseWritten(h0, m1, m2, m3, mem, tbase, tsize, csp);
    }

    /** Lines 893-900 of `add_segment`: what is left of the old top becomes a binned free chunk. */
    method BinOldTop(q: int, psize: int, tn: int, ghost h0: Heap, ghost h2: Heap, ghost tbase: int, ghost tsize: int)
      requires Good(h0, {}) && h0.top != 0 && q == h0.top
      requires tn == RecordAt(h0.top, h0.top + h0.topsize) == q + psize && psize != 0
      requires SegmentAdded(h0, h2, tbase, tsize) && h2.m == AddFinal(h0, mem) && State() == h2.(m := mem)
      requires tn + HEAD in mem && tn in mem && q + HEAD in mem
      modifies `mem, `smallmap, `treemap, `ix
      ensures Good(State(), {}) && Untouched(h0.m, mem, LiveOf(h0.cs))
    {
      hide Good, LiveOf, Untouched, Paged, Total;
      RecordAtEnd(h0);
      assert OldTop(h0) == {q} && TopAsHole(h0, h2, q);
      mem := SetFreeWithPinuse(mem, q, psize, tn);
      ghost var m3 := mem;
      assert State() == h2;
      PutInBin(q, psize, {q});
      assert {q} - {q} == {};
      UntouchedTrans(h0.m, m3, mem, LiveOf(h0.cs));
    }

    /** `add_segment`, lines 844-904 */
    method AddSegment(tbase: int, tsize: int, flags: int, ghost h0: Heap)
      requires Good(h0, {}) && h0.top != 0 && State() == h0.(m := mem) && flags == 0
      requires Region(h0.m, mem, tbase, tsize, 0)
      modifies `mem, `smallmap, `treemap, `ix, `top, `topsize, `trimCheck, `cs, `segs
      ensures Good(State(), {}) && LiveOf(cs) == LiveOf(h0.cs) && Untouched(h0.m, mem, LiveOf(h0.cs))
      ensures top == tbase && topsize == tsize - TOP_FOOT_SIZE && trimCheck == DEFAULT_TRIM_THRESHOLD
      ensures Total(segs) == Total(h0.segs) + tsize && SizesKept(h0.segs, segs, tsize)
      ensures h0.segs != [] && forall a :: a in OldTop(h0) ==> TopAsHole(h0, State(), a)
      ensures segs == SegsWith(h0, tbase, tsize)
    {
      hide Good, LiveOf, Region, FencesDone, Untouched, RecordAt, SizesKept, Total, AddFinal, OldTop;
      ghost var m1 := mem;
      var q, csp := CloseSegment(tbase, tsize, flags, h0);
      ghost var m2 := mem;
      AddedState(h0, m1, m2, tbase, tsize);
      ghost var h2 := Added(h0, AddFinal(h0, m2), tbase, tsize);
      hide Added;
      cs := h2.cs;
      segs := h2.segs;
      if csp != q {
        BinOldTop(q, csp - q, csp, h0, h2, tbase, tsize);
      } else {
        NoOldTop(h0, m2);
      }
    }

    /** `unlink_chunk` while the front block at `tbase` has no head of its own yet. */
    method TakeBehindFront(chunk: int, size: int, ghost tbase: int, ghost front: int)
      requires Good(Poked(State(), tbase, front), {}) && tbase in cs && cs[tbase].kind.Live? && tbase + HEAD in mem
      requires chunk in ix.sizes && ix.sizes[chunk] == size
      modifies `mem, `smallmap, `treemap, `ix
      ensures Good(Poked(State(), tbase, front), {chunk}) && tbase + HEAD in mem
      ensures mem[tbase + HEAD] == old(mem[tbase + HEAD])
      ensures Untouched(Poked(old(State()), tbase, front).m, Poked(State(), tbase, front).m, LiveOf(cs))
    {
      hide Good, Untouched, LiveOf, OnlyLinks, IndexOk, Poked;
      ghost var h0 := State();
      PokeReal(h0, tbase, front);
      UnlinkChunk(chunk, size);
      PokeUnlinked(h0, State(), chunk, tbase, front);
    }

    /**
     `prepend_alloc`, lines 801-841: cuts the requested chunk from the region in front of a segment. To the ghost
     state the region is one block already, although its head has not been written.
     */
    method PrependAlloc(newbase: int, oldbase: int, size: int, ghost req: int) returns (r: int)
      requires FrontBlock(Poked(State(), newbase, oldbase - newbase), {}, newbase, oldbase, size, req)
      requires newbase + HEAD in mem
      modifies `mem, `smallmap, `treemap, `ix, `cs, `dv, `dvsize, `top, `topsize
      ensures Good(State(), {}) && r == newbase + MEM_OFFSET && Pinned(cs, newbase)
      ensures LiveOf(cs) == (LiveOf(old(cs)) - {newbase})[newbase := Block(size, req)]
      ensures Untouched(Poked(old(State()), newbase, oldbase - newbase).m, mem, LiveOf(old(cs)) - {newbase})
      ensures if oldbase == old(dv) && oldbase != old(top)
        then dv == newbase + size && dvsize == old(dvsize) + (oldbase - newbase) - size
        else dv == old(dv) && dvsize == old(dvsize)
    {
      hide Good, LiveOf, Untouched, Poked, BlockAndTop, BlockAndFree, Fits, SetSizeAndPinuseOfInuseChunk,
           SetSizeAndPinuseOfFreeChunk, SetFreeWithPinuse, Size, Inuse;
      ghost var front := oldbase - newbase;
      ghost var h1 := Poked(State(), newbase, front);
      PokedFields(State(), newbase, front);
      ReadBehindFront(h1, newbase, oldbase, size, req);
      BehindFrontEnds(h1, newbase, oldbase, size, req);
      FrontSizes(h1, newbase, oldbase, size, req);
      var p := AlignAsChunk(newbase);
      var oldfirst := AlignAsChunk(oldbase);
      var psize := oldfirst - p;
      var q := p + size;
      var qsize := psize - size;
      if oldfirst == top {
        CutFrontTop(h1, newbase, size, req);
        PokedOver(mem, newbase, Head(front, true, true), size);
        mem := SetSizeAndPinuseOfInuseChunk(mem, p, size);
        cs := BlockAndTop(h1, newbase, q, top + topsize, req).cs;
        BlockAndTopFields(h1, newbase, q, top + topsize, req);
        topsize := Plus(topsize, qsize);
        var tsize := topsize;
        top := q;
        mem := mem[q + HEAD := Head(tsize, true, false)];
      } else if oldfirst == dv {
        PrependToVictim(p, oldbase, size, req);
      } else {
        PrependToBin(p, oldbase, size, req);
      }
      r := p + MEM_OFFSET;
    }

    /** The rest of the region joins the designated victim, lines 820-824. */
    method PrependToVictim(p: int, oldbase: int, size: int, ghost req: int)
      requires FrontBlock(Poked(State(), p, oldbase - p), {}, p, oldbase, size, req) && oldbase == dv && dv != 0
      requires p + HEAD in mem
      modifies `mem, `cs, `dv, `dvsize
      ensures Good(State(), {}) && Pinned(cs, p)
      ensures LiveOf(cs) == (LiveOf(old(cs)) - {p})[p := Block(size, req)]
      ensures Untouched(Poked(old(State()), p, oldbase - p).m, mem, LiveOf(old(cs)) - {p})
      ensures dv == p + size && dvsize == old(dvsize) + (oldbase - p) - size
    {
      hide Good, LiveOf, Untouched, Poked, BlockAndFree, Fits, SetSizeAndPinuseOfInuseChunk,
           SetSizeAndPinuseOfFreeChunk, SetFreeWithPinuse, Size, Inuse;
      ghost var front := oldbase - p;
      ghost var h1 := Poked(State(), p, front);
      PokedFields(State(), p, front);
      FrontSizes(h1, p, oldbase, size, req);
      var q := p + size;
      var qsize := oldbase - q;
      VictimReads(h1, {});
      BehindFrontEnds(h1, p, oldbase, size, req);
      VictimToHole(h1, {});
      assert {} + {dv} == {dv};
      ghost var h2, hi := NoVictim(h1), oldbase + dvsize;
      CutFront(h2, {oldbase}, p, oldbase, size, req);
      BlockAndFreeFields(h2, p, q, hi, req);
      HoleToVictim(BlockAndFree(h2, p, q, hi, req), {q}, q);
      assert {q} - {q} == {};
      PokedOver(mem, p, Head(front, true, true), size);
      mem := SetSizeAndPinuseOfInuseChunk(mem, p, size);
      dvsize := Plus(dvsize, qsize);
      var dsize := dvsize;
      dv := q;
      mem := SetSizeAndPinuseOfFreeChunk(mem, q, dsize);
      cs := BlockAndFree(h2, p, q, hi, req).cs;
    }

    /** The rest of the region becomes a free chunk, with the first chunk behind it if that is free, lines 825-835. */
    method PrependToBin(p: int, oldbase: int, size: int, ghost req: int)
      requires FrontBlock(Poked(State(), p, oldbase - p), {}, p, oldbase, size, req)
      requires oldbase != dv && oldbase != top && p + HEAD in mem
      modifies `mem, `smallmap, `treemap, `ix, `cs
      ensures Good(State(), {}) && Pinned(cs, p)
      ensures LiveOf(cs) == (LiveOf(old(cs)) - {p})[p := Block(size, req)]
      ensures Untouched(Poked(old(State()), p, oldbase - p).m, mem, LiveOf(old(cs)) - {p})
    {
      hide Good, LiveOf, Untouched, Poked, BlockAndFree, Fits, SetSizeAndPinuseOfInuseChunk,
           SetSizeAndPinuseOfFreeChunk, SetFreeWithPinuse, Size, Inuse;
      ghost var front := oldbase - p;
      ghost var h1, live := Poked(State(), p, front), LiveOf(cs);
      PokedFields(State(), p, front);
      ReadBehindFront(h1, p, oldbase, size, req);
      BehindFrontEnds(h1, p, oldbase, size, req);
      FrontSizes(h1, p, oldbase, size, req);
      UntouchedSelf(h1, {});
      var q := p + size;
      var qsize := oldbase - q;
      var oldfirst := oldbase;
      FrontHead(mem, p, size);
      PokedAgain(State(), p, front, size);
      mem := SetSizeAndPinuseOfInuseChunk(mem, p, size);
      ghost var holes: set<int> := {};
      if !Inuse(mem[oldfirst + HEAD]) {
        var nsize := Size(mem[oldfirst + HEAD]);
        TakeBehindFront(oldfirst, nsize, p, front);
        oldfirst := oldfirst + nsize;
        qsize := Plus(qsize, nsize);
        holes := {oldbase};
      }
      ghost var h2 := Poked(State(), p, front);
      PokedFields(State(), p, front);
      CutFront(h2, holes, p, oldbase, size, req);
      BlockAndFreeFields(h2, p, q, oldfirst, req);
      PokedSize(State(), p, front, size);
      UntouchedPart(h1.m, h2.m, BlockAndFree(h2, p, q, oldfirst, req).m, live, {p});
      mem := SetFreeWithPinuse(mem, q, qsize, oldfirst);
      cs := BlockAndFree(h2, p, q, oldfirst, req).cs;
      ghost var m3 := mem;
      PutInBin(q, qsize, {q});
      assert {q} - {q} == {};
      UntouchedThen(h1.m, m3, mem, live - {p}, LiveOf(cs));
    }

    /** The region lies in front of segment `i`, lines 490-494 of `sys_alloc`. */
    method PrependRegion(sp: int, tbase: int, tsize: int, size: int, ghost req: int, ghost h0: Heap, ghost i: int)
      returns (r: int)
      requires Good(h0, {}) && State() == h0.(m := mem) && 0 <= i < |h0.segs| && sp == h0.segs[i].rec
      requires Region(h0.m, mem, tbase, tsize, size) && tbase + tsize == h0.segs[i].base
      requires Fits(req, size) && size + MIN_CHUNK_SIZE <= tsize
      modifies `mem, `smallmap, `treemap, `ix, `cs, `segs, `dv, `dvsize, `top, `topsize
      ensures Good(State(), {}) && Allocated(h0, State(), r - MEM_OFFSET, req, size)
      ensures Total(segs) == Total(h0.segs) + tsize && SizesKept(h0.segs, segs, tsize) && r != 0
      ensures segs == h0.segs[i := Seg(tbase, h0.segs[i].size + tsize, h0.segs[i].rec)] && r == tbase + MEM_OFFSET
      ensures if tbase + tsize == h0.dv then dv == tbase + size && dvsize == h0.dvsize + tsize - size
        else dv == h0.dv && dvsize == h0.dvsize
    {
      hide Good, LiveOf, Untouched, Poked, Region, RegionFits, Fits, FrontWritten, Fronted, FrontBlock, Grown,
           Allocated, WithFront, Paged, Total;
      ghost var m1 := mem;
      RegionIs(h0.m, m1, tbase, tsize, size);
      FrontReady(h0, m1, i, tbase);
      VictimNotTop(h0);
      HeldSeg(h0, {}, i);
      var oldbase := tbase + tsize;
      mem := mem[sp := tbase];
      mem := mem[sp + SEG_SIZE := Plus(mem[sp + SEG_SIZE], tsize)];
      ghost var front := oldbase - tbase;
      ghost var m3 := mem[tbase + HEAD := Head(front, true, true)];
      FrontIsBlock(h0, m3, i, tbase, size, req);
      FrontFields(h0, m3, i, tbase);
      ghost var h1 := Fronted(h0, m3, i, tbase);
      PagedGrow(h0.segs, i, Seg(tbase, End(h0.segs[i]) - tbase, sp), tsize);
      TotalUpdate(h0.segs, i, Seg(tbase, End(h0.segs[i]) - tbase, sp));
      cs := h1.cs;
      segs := h1.segs;
      PokedFields(State(), tbase, front);
      assert Poked(State(), tbase, front) == h1;
      r := PrependAlloc(tbase, oldbase, size, req);
      assert size >= 0 by { FitsPositive(req, size); }
      FrontAllocated(h0, h1, State(), tbase, req, size);
    }

    /**
     Lines 471-498 of `sys_alloc`: puts a region behind the head segment, in front of some segment, or in a segment
     of its own. In front of a segment the request is served at once, and otherwise from the new top.
     */
    method ExtendHeap(tbase: int, tsize: int, flags: int, size: int, ghost req: int, ghost h0: Heap) returns (r: int)
      requires Good(h0, {}) && h0.top != 0 && State() == h0.(m := mem) && flags == 0
      requires Region(h0.m, mem, tbase, tsize, size + SYS_PADDING) && Fits(req, size)
      modifies `mem, `smallmap, `treemap, `ix, `cs, `segs, `dv, `dvsize, `top, `topsize, `trimCheck
      ensures Good(State(), {}) && Total(segs) == Total(h0.segs) + tsize && SizesKept(h0.segs, segs, tsize)
      ensures r != 0 ==> Allocated(h0, State(), r - MEM_OFFSET, req, size)
      ensures r == 0 ==> size < topsize && LiveOf(cs) == LiveOf(h0.cs) && Untouched(h0.m, mem, LiveOf(h0.cs))
      ensures Joined(h0, State(), tbase, tsize, if r != 0 then r - MEM_OFFSET else top)
      ensures VictimJoined(h0, State(), tbase, tsize, size)
      ensures trimCheck == if JoinsFront(h0.segs, tbase, tsize) then old(trimCheck) else DEFAULT_TRIM_THRESHOLD
    {
      hide Good, LiveOf, Untouched, Region, RegionFits, Fits, Allocated, Linked, Total, SizesKept;
      FitsPositive(req, size);
      RegionIs(h0.m, mem, tbase, tsize, size + SYS_PADDING);
      RegionWeaker(h0.m, mem, tbase, tsize, size + SYS_PADDING, size);
      GoodLinked(h0, {});
      LinkedGrown(h0.m, mem, segs, tbase, tbase + tsize);
      BinnedInCs(h0, {});
      hide Grown;
      var sp: int;
      ghost var i: int;
      sp, i := SegmentEndingAt(tbase);
      if sp != 0 {
        ReadRecord(mem, segs, i);
        HeadHoldsTop(h0, {}, i);
      }
      r := 0;
      hide Joined, VictimJoined, JoinsFront;
      if sp != 0 && mem[sp + SEG_FLAGS] % 2 == 0 && mem[sp + SEG_FLAGS] / 2 == flags
        && mem[sp] <= top && top < Plus(mem[sp], mem[sp + SEG_SIZE]) {
        assert i == 0;
        Tail(h0, {});
        AppendRegion(tsize, h0);
        JoinedBehind(h0, State(), tbase, tsize, size);
      } else {
        r := ExtendApart(tbase, tsize, flags, size, req, h0);
      }
    }

    /** Lines 486-498 of `sys_alloc`: the region does not lie behind the head segment. */
    method ExtendApart(tbase: int, tsize: int, flags: int, size: int, ghost req: int, ghost h0: Heap) returns (r: int)
      requires Good(h0, {}) && h0.top != 0 && h0.segs != [] && State() == h0.(m := mem) && flags == 0
      requires Region(h0.m, mem, tbase, tsize, size + SYS_PADDING) && Fits(req, size) && tbase != End(h0.segs[0])
      requires Linked(mem, segs)
      modifies `mem, `smallmap, `treemap, `ix, `cs, `segs, `dv, `dvsize, `top, `topsize, `trimCheck
      ensures Good(State(), {}) && Total(segs) == Total(h0.segs) + tsize && SizesKept(h0.segs, segs, tsize)
      ensures r != 0 ==> Allocated(h0, State(), r - MEM_OFFSET, req, size)
      ensures r == 0 ==> size < topsize && LiveOf(cs) == LiveOf(h0.cs) && Untouched(h0.m, mem, LiveOf(h0.cs))
      ensures Joined(h0, State(), tbase, tsize, if r != 0 then r - MEM_OFFSET else top)
      ensures VictimJoined(h0, State(), tbase, tsize, size)
      ensures trimCheck == if JoinsFront(h0.segs, tbase, tsize) then old(trimCheck) else DEFAULT_TRIM_THRESHOLD
    {
      hide Good, LiveOf, Untouched, Region, RegionFits, Fits, Allocated, Linked, Total, SegsWith, Joined, VictimJoined,
           JoinsFront, SizesKept, OldTop, TopAsHole;
      FitsPositive(req, size);
      RegionIs(h0.m, mem, tbase, tsize, size + SYS_PADDING);
      RegionWeaker(h0.m, mem, tbase, tsize, size + SYS_PADDING, size);
      BasesDiffer(h0);
      r := 0;
      var sp: int;
      ghost var i: int;
      sp, i := SegmentStartingAt(Plus(tbase, tsize));
      if sp != 0 {
        ReadRecord(mem, segs, i);
      } else {
        EndOfList(mem, segs, i);
      }
      if sp != 0 && mem[sp + SEG_FLAGS] % 2 == 0 && mem[sp + SEG_FLAGS] / 2 == flags {
        r := PrependRegion(sp, tbase, tsize, size, req, h0, i);
        JoinedInFront(h0, State(), tbase, tsize, size, i);
      } else {
        AddSegment(tbase, tsize, flags, h0);
        JoinedAlone(h0, State(), tbase, tsize, size);
      }
    }

    /** Lines 501-514 of `sys_alloc`. */
    method ServeFromTop(size: int, ghost req: int, ghost h0: Heap) returns (r: int)
      requires Good(State(), {}) && Fits(req, size) && size < topsize
      requires LiveOf(cs) == LiveOf(h0.cs) && Untouched(h0.m, mem, LiveOf(h0.cs))
      modifies `mem, `cs, `top, `topsize
      ensures Good(State(), {}) && Allocated(h0, State(), r - MEM_OFFSET, req, size) && r != 0
      ensures r - MEM_OFFSET == old(top)
    {
      hide Good, LiveOf, Untouched, Fits, Allocated;
      ghost var h2 := State();
      r := MallocFromTop(size, req);
      AllocatedAfter(h0, h2, State(), r - MEM_OFFSET, req, size);
      AllocatedAt(h0, State(), r - MEM_OFFSET, req, size);
    }

    /** Lines 442-454 of `sys_alloc`: a region with room for the chunk, a reserve, and alignment. */
    method ObtainRegion(size: int) returns (tbase: int, tsize: int, flags: int, ghost asize: int)
      requires Good(State(), {}) && footprint == Total(segs) == Outstanding(traffic) && maxFootprint == Peak(traffic)
      requires LegalGranularity(granularity)
      requires size + SYS_PADDING + (granularity - 1) < WORD_LIMIT && size >= MIN_CHUNK_SIZE
      modifies `mem, `footprint, `maxFootprint, `denials, `traffic
      ensures flags == 0 && footprint == Outstanding(traffic) && maxFootprint == Peak(traffic)
      ensures traffic == old(traffic) + [AskedFor(asize, tbase, tsize)]
      ensures RoundedUp(asize, granularity, size + TOP_FOOT_SIZE + MALLOC_ALIGNMENT)
      ensures tbase == 0 ==> mem == old(mem) && footprint == old(footprint) && denials == old(denials) + 1
      ensures tbase != 0 ==> Region(old(mem), mem, tbase, tsize, size + SYS_PADDING)
      ensures tbase != 0 ==> footprint == old(footprint) + tsize && denials == old(denials)
      ensures tbase != 0 && paged ==> tsize % MIN_REGION == 0
      ensures tbase != 0 ==> footprint <= capacity
    {
      hide Good, LegalGranularity, Region, RegionFits, Total, Outstanding, Peak, RoundedUp, AlignUp;
      ghost var h0 := State();
      GranularityFacts(granularity);
      var rounded := AlignUp(Plus(Plus(size, TOP_FOOT_SIZE), MALLOC_ALIGNMENT), granularity);
      AlignUpBounds(size + SYS_PADDING, granularity);
      RoundsUp(size + SYS_PADDING, granularity);
      asize := rounded;
      tbase, tsize, flags := SystemAlloc(rounded);
      OneMoreCall(old(traffic), AskedFor(asize, tbase, tsize));
      if tbase != 0 {
        RegionWeaker(old(mem), mem, tbase, tsize, asize, size + SYS_PADDING);
        RegionIs(old(mem), mem, tbase, tsize, asize);
        RegionCounts(h0, mem, tbase, tsize, asize);
        footprint := Plus(footprint, tsize);
        maxFootprint := if maxFootprint < footprint then footprint else maxFootprint;
      }
    }

    /** Lines 456-516 of `sys_alloc`: the padding of the region leaves room for the request in every case. */
    method UseRegion(tbase: int, tsize: int, flags: int, size: int, ghost req: int, ghost h0: Heap) returns (r: int)
      requires Good(h0, {}) && State() == h0.(m := mem) && flags == 0 && maxReleaseCheckRate >= 0
      requires Region(h0.m, mem, tbase, tsize, size + SYS_PADDING) && Fits(req, size)
      requires segs != [] ==> trimCheck >= DEFAULT_TRIM_THRESHOLD
      modifies `mem, `smallmap, `treemap, `ix, `cs, `segs, `dv, `dvsize, `top, `topsize, `trimCheck, `releaseChecks
      ensures Good(State(), {}) && Total(segs) == Total(h0.segs) + tsize
      ensures SizesKept(h0.segs, segs, tsize) && segs != [] && trimCheck >= DEFAULT_TRIM_THRESHOLD
      ensures releaseChecks == if h0.segs == [] then ReleaseCheckTarget() else old(releaseChecks)
      ensures r != 0 && Allocated(h0, State(), r - MEM_OFFSET, req, size)
      ensures Joined(h0, State(), tbase, tsize, r - MEM_OFFSET) && VictimJoined(h0, State(), tbase, tsize, size)
      ensures trimCheck == if JoinsFront(h0.segs, tbase, tsize) then old(trimCheck) else DEFAULT_TRIM_THRESHOLD
    {
      hide Good, LiveOf, Untouched, Region, RegionFits, Fits, Allocated, Total, SizesKept, OldTop, TopAsHole;
      TopHasSegment(h0);
      FitsPositive(req, size);
      if top == 0 {
        FirstSegment(tbase, tsize, flags, size, h0);
      } else {
        r := ExtendHeap(tbase, tsize, flags, size, req, h0);
        if r != 0 {
          AllocatedHasTop(h0, State(), r - MEM_OFFSET, req, size);
          return;
        }
      }
      assert size < topsize;
      if size < topsize {
        r := ServeFromTop(size, req, h0);
        AllocatedHasTop(h0, State(), r - MEM_OFFSET, req, size);
        return;
      }
      r := 0;
    }

    /** `sys_alloc`, lines 440-517: it fails only if the system refuses. */
    method SysAlloc(size: int, ghost req: int) returns (r: int)
      requires Valid() && Fits(req, size) && size + SYS_PADDING + (granularity - 1) < WORD_LIMIT
      modifies `mem, `smallmap, `treemap, `ix, `cs, `segs, `dv, `dvsize, `top, `topsize, `trimCheck, `footprint,
        `maxFootprint, `releaseChecks, `denials, `traffic
      ensures Valid() && Extended(old(Ledger()), Ledger(), false)
      ensures r == 0 ==> denials == old(denials) + 1 && State() == old(State()) && Ledger() == old(Ledger())
      ensures r != 0 ==> denials == old(denials) && Allocated(old(State()), State(), r - MEM_OFFSET, req, size)
      ensures Requested(old(State()), old(Ledger()), State(), Ledger(), Since(old(traffic), traffic), granularity,
                        maxReleaseCheckRate, size, r)
    {
      hide Good, Region, Fits, Allocated, LegalGranularity, Total, Paged, AllLarge, TailLarge, Outstanding, Peak,
           RoundedUp, Joined, VictimJoined, JoinsFront;
      AllIsTail(segs);
      ghost var h0 := State();
      FitsPositive(req, size);
      ghost var asize: int;
      var tbase, tsize, flags: int;
      tbase, tsize, flags, asize := ObtainRegion(size);
      SinceAppended(old(traffic), [AskedFor(asize, tbase, tsize)]);
      if tbase == 0 {
        return 0;
      }
      r := UseRegion(tbase, tsize, flags, size, req, h0);
    }

    // ---------- malloc ----------

    /** Lines 327-381 of `malloc`: a small request is served from a small bin or, failing that, from the tree bins. */
    method MallocSmall(nb: int, ghost req: int) returns (r: int)
      requires Good(State(), {}) && Fits(req, nb) && nb <= 240
      modifies `mem, `smallmap, `treemap, `ix, `cs, `dv, `dvsize
      ensures Good(State(), {})
      ensures r == 0 ==> State() == old(State())
      ensures r != 0 ==> Allocated(old(State()), State(), r - MEM_OFFSET, req, nb)
      ensures r != 0 <==> FromBins(old(State()), nb)
      ensures r != 0 ==> Smallest(old(ix), nb, r - MEM_OFFSET) && Newest(old(ix), r - MEM_OFFSET)
      ensures r != 0 ==> RemainderKept(old(State()), State(), nb, r - MEM_OFFSET)
    {
      hide Good, Fits, Allocated, Bit, ShiftRight, NearBin, NextBin, BestFitting, IndexOk, Newest;
      ghost var h0 := State();
      GoodIndex(h0, {});
      FitsPositive(req, nb);
      var idx := SmallIndex(nb);
      var smallbits := ShiftRight(smallmap, idx);
      NearBinIsMarked(smallmap, idx);
      NearIsRemainderless(mem, smallmap, treemap, ix, nb);
      r := 0;
      if smallbits & 3 != 0 {
        var i := NearBin(smallmap, idx);
        r := MallocFromNearBin(i, nb, req);
        AllocatedAt(h0, State(), r - MEM_OFFSET, req, nb);
      } else if nb > dvsize {
        if smallbits != 0 {
          NextBinIsLeast(smallmap, idx);
          var i := NextBin(smallmap, idx);
          r := MallocFromNextBin(i, nb, req);
          AllocatedAt(h0, State(), r - MEM_OFFSET, req, nb);
          NextIsSmallest(h0.m, h0.smallmap, h0.treemap, h0.ix, nb, r - MEM_OFFSET);
        } else if treemap != 0 {
          r := TmallocSmall(nb, req);
          AllocatedAt(h0, State(), r - MEM_OFFSET, req, nb);
          TreeIsSmallest(h0.m, h0.smallmap, h0.treemap, h0.ix, nb, r - MEM_OFFSET);
        } else {
          NothingBinnedFits(mem, smallmap, treemap, ix, nb);
        }
      }
    }

    /** Lines 386-395 of `malloc`: a large request is served from the tree bins if they are the best fit. */
    method MallocLarge(nb: int, ghost req: int) returns (r: int)
      requires Good(State(), {}) && Fits(req, nb) && MIN_LARGE_SIZE <= nb < WORD_LIMIT
      modifies `mem, `smallmap, `treemap, `ix, `cs
      ensures Good(State(), {})
      ensures r == 0 ==> State() == old(State())
      ensures r != 0 ==> Allocated(old(State()), State(), r - MEM_OFFSET, req, nb)
      ensures r != 0 <==> FromBins(old(State()), nb)
      ensures r != 0 ==> Smallest(old(ix), nb, r - MEM_OFFSET) && Newest(old(ix), r - MEM_OFFSET)
    {
      hide Good, Fits, Allocated, Chosen, TreeIndex, BestFitting, DvFitsBest, IndexOk, Newest;
      ghost var h0 := State();
      GoodIndex(h0, {});
      r := 0;
      if treemap != 0 {
        r := TmallocLarge(nb, req);
        if r == 0 {
          VictimIsTighter(mem, smallmap, treemap, ix, nb, dvsize);
        } else {
          AllocatedAt(h0, State(), r - MEM_OFFSET, req, nb);
          TreeIsSmallest(h0.m, h0.smallmap, h0.treemap, h0.ix, nb, r - MEM_OFFSET);
        }
      } else {
        NothingBinnedFits(mem, smallmap, treemap, ix, nb);
      }
    }

    /**
     `malloc`, lines 323-437. It follows the algorithm of src/dlmalloc.c:4541-4558: the smallest binned chunk that fits
     or the designated victim, whichever is preferred for the size, then top, and only then the system.
     */
    method Malloc(size: int) returns (r: int)
      requires Valid() && 0 <= size < WORD_LIMIT
      modifies `mem, `smallmap, `treemap, `ix, `cs, `segs, `dv, `dvsize, `top, `topsize, `trimCheck, `footprint,
        `maxFootprint, `releaseChecks, `denials, `traffic
      ensures Valid()
      ensures r == 0 ==> State() == old(State())
      ensures denials == old(denials) + if r == 0 && size < MaxRequest(granularity) then 1 else 0
      ensures r != 0 ==> size < MaxRequest(granularity)
      ensures r != 0 ==> Allocated(old(State()), State(), r - MEM_OFFSET, size, Request2Size(size))
      ensures r != 0 ==> Served(old(State()), Request2Size(size), r - MEM_OFFSET)
      ensures size < MaxRequest(granularity) && InHand(old(State()), Request2Size(size)) ==> r != 0
      ensures Extended(old(Ledger()), Ledger(), InHand(old(State()), Request2Size(size)))
      ensures r != 0 ==> VictimServed(old(State()), State(), Request2Size(size), r - MEM_OFFSET)
      ensures SystemUsed(old(State()), old(traffic), traffic, granularity, size, r)
      ensures size < MaxRequest(granularity) && !InHand(old(State()), Request2Size(size)) ==>
        Requested(old(State()), old(Ledger()), State(), Ledger(), Since(old(traffic), traffic), granularity,
                  maxReleaseCheckRate, Request2Size(size), r)
    {
      hide Good, Fits, Allocated, LegalGranularity, MaxRequest, Total, Request2Size, PadRequest, LiveOf, Untouched,
           FromBins, Smallest, Newest, RemainderKept, Paged, AllLarge, TailLarge, Outstanding, Peak, AskedOnce, Joined,
           VictimJoined, JoinsFront;
      AllIsTail(segs);
      GranularityFacts(granularity);
      ghost var h0 := State();
      Request2SizeFits(size);
      SmallRequests(size, granularity);
      r := 0;
      var nb;
      if size <= MAX_SMALL_REQUEST {
        nb := Request2Size(size);
        r := MallocSmall(nb, size);
      } else if size >= MaxRequest(granularity) {
        return;
      } else {
        nb := PadRequest(size);
        r := MallocLarge(nb, size);
      }
      if r == 0 {
        r := MallocFromRest(nb, size);
      }
    }

    /** Lines 399-436 of `malloc`: the designated victim, then top, then the system. */
    method MallocFromRest(nb: int, ghost req: int) returns (r: int)
      requires Valid() && Fits(req, nb) && nb + SYS_PADDING + (granularity - 1) < WORD_LIMIT
      modifies `mem, `smallmap, `treemap, `ix, `cs, `segs, `dv, `dvsize, `top, `topsize, `trimCheck, `footprint,
        `maxFootprint, `releaseChecks, `denials, `traffic
      ensures Valid() && Extended(old(Ledger()), Ledger(), nb <= old(dvsize) || nb < old(topsize))
      ensures r == 0 ==> denials == old(denials) + 1 && State() == old(State())
      ensures r != 0 ==> denials == old(denials) && Allocated(old(State()), State(), r - MEM_OFFSET, req, nb)
      ensures nb <= old(dvsize) ==> r - MEM_OFFSET == old(dv)
      ensures old(dvsize) < nb < old(topsize) ==> r - MEM_OFFSET == old(top)
      ensures nb <= old(dvsize) || nb < old(topsize) ==> r != 0 && traffic == old(traffic)
      ensures nb <= old(dvsize) ==>
        if old(dvsize) - nb >= MIN_CHUNK_SIZE then dv == old(dv) + nb && dvsize == old(dvsize) - nb
        else dv == 0 && dvsize == 0
      ensures old(dvsize) < nb < old(topsize) ==> dv == old(dv) && dvsize == old(dvsize)
      ensures nb > old(dvsize) && nb >= old(topsize) ==>
        Requested(old(State()), old(Ledger()), State(), Ledger(), Since(old(traffic), traffic), granularity,
                  maxReleaseCheckRate, nb, r)
    {
      hide Good, Fits, Allocated, LegalGranularity, Total, LiveOf, Untouched, Paged, AllLarge, TailLarge, Outstanding,
           Peak, AskedOnce, Joined, VictimJoined, JoinsFront;
      AllIsTail(segs);
      ghost var h0 := State();
      if nb <= dvsize {
        r := MallocFromVictim(nb, req);
        AllocatedAt(h0, State(), r - MEM_OFFSET, req, nb);
        return;
      }
      if nb < topsize {
        r := MallocFromTop(nb, req);
        AllocatedAt(h0, State(), r - MEM_OFFSET, req, nb);
        return;
      }
      r := SysAlloc(nb, req);
    }

    // ---------- giving memory back to the system ----------

    /** `insert_large_chunk` on a good heap. */
    method PutLarge(chunk: int, size: int)
      requires Good(State(), {chunk}) && chunk in cs && cs[chunk].size == size && !IsSmall(size)
      modifies `mem, `treemap, `ix
      ensures Good(State(), {}) && Untouched(old(mem), mem, LiveOf(cs))
    {
      hide Good, Untouched, LiveOf, OnlyLinks, IndexOk, CanAdd, FreeSizes, IsSmall;
      ghost var h0 := State();
      GoodIndex(h0, {chunk});
      HoleFits(h0, chunk, {chunk});
      InsertLargeChunk(chunk, size);
      InsertedGood(h0, State(), chunk, {chunk});
      assert {chunk} - {chunk} == {};
    }

    /** What the release pass has read about segment `i`. */
    ghost predicate CanRelease(p: int, psize: int, base: int, size: int, pred: int, next: int, i: int)
      reads this
    {
      && Releasable(State(), i) && !IsSmall(psize) && p == base == segs[i].base && cs[p].size == psize
      && size == segs[i].size && pred == RecAt(segs, i - 1) && next == RecAt(segs, i + 1)
    }

    /** Lines 1427-1432 of `release_unused_segments`: takes the chunk that fills a segment out of its place. */
    method TakeVacant(p: int)
      requires Good(State(), {}) && p in cs && cs[p].kind.Free? && !IsSmall(cs[p].size)
      modifies `mem, `treemap, `ix, `dv, `dvsize
      ensures Good(State(), {p}) && Untouched(old(mem), mem, LiveOf(cs)) && dv == if p == old(dv) then 0 else old(dv)
    {
      hide Good, Untouched, LiveOf, IsSmall, IndexOk;
      ghost var h0 := State();
      UntouchedSelf(h0, {});
      WhereFree(h0, {}, p);
      GoodIndex(h0, {});
      if p == dv {
        VictimToHole(h0, {});
        assert {} + {p} == {p};
        dv := 0;
        dvsize := 0;
      } else {
        LargeIsLocated(mem, smallmap, treemap, ix, p);
        TakeLarge(p);
      }
    }

    /** Lines 1426-1443 of `release_unused_segments`: tries to give back segment `i`, whose chunk `p` fills it. */
    method TryRelease(p: int, psize: int, base: int, size: int, pred: int, next: int, ghost i: int)
      returns (freed: bool)
      requires CanRelease(p, psize, base, size, pred, next, i) && Good(State(), {})
      modifies `mem, `treemap, `ix, `dv, `dvsize, `cs, `segs, `traffic
      ensures Good(State(), {}) && LiveOf(cs) == old(LiveOf(cs)) && Untouched(old(mem), mem, LiveOf(cs))
      ensures segs == Without(old(segs), i, freed) && FreeFewer(old(cs), cs)
      ensures traffic == old(traffic) + [Offered(base, size, freed)] && dv == if p == old(dv) then 0 else old(dv)
    {
      hide Good, Untouched, LiveOf, IsSmall, Releasable, IndexOk, Vacant, SegmentChunks, FreeFewer;
      ghost var h0 := State();
      FewerSelf(cs);
      ReleasableIsVacant(h0, {}, i);
      VacantFree(h0, i);
      TakeVacant(p);
      ghost var h1 := State();
      VacantSame(h0, h1, i);
      HeldSeg(h1, {p}, i);
      freed := SystemFree(base, size);
      if freed {
        DropLinkHeld(h1, mem, i);
        mem := mem[pred + SEG_NEXT := next];
        assert DropWritten(h1, mem, i);
        DropGood(h1, mem, i);
        DropFewer(h1, mem, i);
        cs := Dropped(h1, mem, i).cs;
        segs := Dropped(h1, mem, i).segs;
        UntouchedTrans(h0.m, h1.m, mem, LiveOf(h0.cs));
      } else {
        PutLarge(p, psize);
        UntouchedTrans(h0.m, h1.m, mem, LiveOf(h0.cs));
      }
    }

    /** Lines 1418-1445 of `release_unused_segments`: gives segment `k` back if one free chunk fills it. */
    method LookAtSegment(sp: int, base: int, size: int, pred: int, next: int, ghost k: int)
      returns (freed: bool, ghost calls: seq<SystemCall>)
      requires Good(State(), {}) && Linked(mem, segs) && 1 <= k < |segs|
      requires releases && Releasable(State(), k) ==> size >= LARGE_SEGMENT
      requires sp == segs[k].rec && base == segs[k].base && size == segs[k].size
      requires pred == RecAt(segs, k - 1) && next == RecAt(segs, k + 1)
      modifies `mem, `treemap, `ix, `dv, `dvsize, `cs, `segs, `traffic
      ensures Good(State(), {}) && LiveOf(cs) == old(LiveOf(cs)) && Untouched(old(mem), mem, LiveOf(cs))
      ensures segs == Without(old(segs), k, freed) && (PassSafe(old(State())) ==> PassSafe(State()))
      ensures size >= 0 && Total(segs) == Total(old(segs)) - if freed then size else 0
      ensures (Paged(old(segs)) ==> Paged(segs)) && (TailLarge(old(segs)) ==> TailLarge(segs))
      ensures traffic == old(traffic) + calls && PassLog(LiveOf(cs), [old(segs)[k]], calls)
      ensures Left(LiveOf(cs), [old(segs)[k]], calls) == if freed then [] else [old(segs)[k]]
      ensures dv == if WasOffered(calls, old(dv)) then 0 else old(dv)
      ensures Outstanding(traffic) == Outstanding(old(traffic)) - (if freed then size else 0)
      ensures Peak(traffic) == Peak(old(traffic))
    {
      hide Good, Untouched, LiveOf, IsSmall, Releasable, IndexOk, Linked, Total, Paged, TailLarge, PassSafe, FreeFewer,
           Outstanding, Peak, PassLog, Left, Vacated, WasOffered;
      ghost var h, t0 := State(), traffic;
      ghost var offered := false;
      UntouchedSelf(h, {});
      ReadRecord(mem, segs, k);
      HeldSeg(h, {}, k);
      freed := false;
      VictimNotTop(h);
      ReleasableIsVacated(h, k);
      var canRelease := CanReleasePart(mem[sp + SEG_FLAGS] / 2);
      OneMoreCall(t0, MayRelease(canRelease));
      ghost var t1 := traffic;
      if canRelease && mem[sp + SEG_FLAGS] % 2 == 0 {
        var p := AlignAsChunk(base);
        SeeFirst(h, k);
        TestIsReleasable(h, k);
        var psize := Size(mem[p + HEAD]);
        var chunkTop := p + psize;
        var segTop := base + (size - TOP_FOOT_SIZE);
        if !Inuse(mem[p + HEAD]) && chunkTop >= segTop {
          offered := true;
          ReleasableIsLarge(h, {}, k);
          TotalDrop(segs, k);
          PagedDrop(segs, k);
          freed := TryRelease(p, psize, base, size, pred, next, k);
          OneMoreCall(t1, Offered(base, size, freed));
          if PassSafe(h) {
            SafeWithout(h, State(), k, freed);
          }
        }
      }
      calls := [MayRelease(canRelease)] + if offered then [Offered(base, size, freed)] else [];
      PassOne(LiveOf(cs), h.segs[k], canRelease, offered, freed);
    }

    /**
     One round of the release pass with segment `k`, which is number `j` of the segments `all` there were before. The
     pass started in `h0`, and `log` holds the calls it has made.
     */
    method PassRound(sp: int, base: int, size: int, pred: int, next: int, ghost k: int, ghost h0: Heap, ghost j: int,
                     ghost log: seq<SystemCall>)
      returns (freed: bool, ghost calls: seq<SystemCall>)
      requires Good(State(), {}) && Linked(mem, segs) && 1 <= k < |segs| && (releases ==> PassSafe(State()))
      requires sp == segs[k].rec && base == segs[k].base && size == segs[k].size
      requires pred == RecAt(segs, k - 1) && next == RecAt(segs, k + 1) && top == h0.top && top != 0
      requires LiveOf(cs) == LiveOf(h0.cs) && Untouched(h0.m, mem, LiveOf(h0.cs)) && Outstanding(traffic) == Total(segs)
      requires PassHalfway(LiveOf(cs), h0.segs, segs, j, k, log) && dv == if WasOffered(log, h0.dv) then 0 else h0.dv
      modifies `mem, `treemap, `ix, `dv, `dvsize, `cs, `segs, `traffic
      ensures Good(State(), {}) && LiveOf(cs) == LiveOf(h0.cs) && Untouched(h0.m, mem, LiveOf(h0.cs))
      ensures Linked(mem, segs) && (releases ==> PassSafe(State())) && segs[0] == old(segs)[0]
      ensures if freed then pred == RecAt(segs, k - 1) && next == RecAt(segs, k) && k <= |segs| == old(|segs|) - 1
        else sp == RecAt(segs, k) && next == RecAt(segs, k + 1) && k < |segs| == old(|segs|)
      ensures size >= 0 && Total(segs) == Total(old(segs)) - if freed then size else 0
      ensures 0 <= Total(segs) <= WORD_LIMIT - HEAP_START
      ensures (Paged(old(segs)) ==> Paged(segs)) && (TailLarge(old(segs)) ==> TailLarge(segs))
      ensures traffic == old(traffic) + calls && Outstanding(traffic) == Total(segs)
      ensures Peak(traffic) == Peak(old(traffic)) && j < |h0.segs|
      ensures PassHalfway(LiveOf(cs), h0.segs, segs, j + 1, if freed then k else k + 1, log + calls)
      ensures dv == if WasOffered(log + calls, h0.dv) then 0 else h0.dv
    {
      hide Good, Untouched, LiveOf, Linked, Total, Paged, TailLarge, PassSafe, Releasable, Outstanding, Peak, PassLog,
           Left, WasOffered, PassHalfway;
      ghost var h1 := State();
      PassSafeAt(h1, k);
      freed, calls := LookAtSegment(sp, base, size, pred, next, k);
      UntouchedTrans(h0.m, h1.m, mem, LiveOf(h0.cs));
      GoodLinked(State(), {});
      FootprintBound(State(), {});
      PassGoesOn(LiveOf(cs), h0.segs, h1.segs, j, k, log, calls, freed, h0.dv, h1.dv);
    }

    /** The loop of `release_unused_segments`, lines 1408-1448: the bytes released and the segments looked at. */
    method PassLoop() returns (released: int, nsegs: int, ghost log: seq<SystemCall>)
      requires Good(State(), {}) && top != 0 && (releases ==> PassSafe(State())) && segs != []
      requires footprint == Total(segs) == Outstanding(traffic)
      modifies `mem, `treemap, `ix, `dv, `dvsize, `cs, `segs, `footprint, `traffic
      ensures Good(State(), {}) && LiveOf(cs) == old(LiveOf(cs)) && Untouched(old(mem), mem, LiveOf(cs))
      ensures released == old(footprint) - footprint >= 0 && footprint == Total(segs) == Outstanding(traffic)
      ensures Peak(traffic) == Peak(old(traffic)) && traffic == old(traffic) + log
      ensures (Paged(old(segs)) ==> Paged(segs)) && (TailLarge(old(segs)) ==> TailLarge(segs))
      ensures PassLog(LiveOf(cs), old(segs)[1..], log) && nsegs == |old(segs)| - 1
      ensures segs == [old(segs)[0]] + Left(LiveOf(cs), old(segs)[1..], log)
      ensures dv == if WasOffered(log, old(dv)) then 0 else old(dv)
    {
      hide Good, Untouched, LiveOf, IndexOk, Linked, Total, Paged, TailLarge, LegalGranularity, PassSafe, Releasable,
           Outstanding, Peak, PassLog, Left, WasOffered, PassHalfway, RecAt;
      ghost var h0, live, t0 := State(), LiveOf(cs), traffic;
      UntouchedSelf(h0, {});
      FootprintBound(h0, {});
      GoodLinked(h0, {});
      HeadRec(mem, segs);
      released, nsegs, log := 0, 0, [];
      var pred := SEG;
      ReadRecord(mem, segs, 0);
      RecordPlaces(mem, segs);
      var sp := mem[pred + SEG_NEXT];
      ghost var k := 1;
      PassStarts(live, segs, dv);
      while sp != 0
        invariant Good(State(), {}) && LiveOf(cs) == live && Untouched(h0.m, mem, live)
        invariant 1 <= k <= |segs| && pred == RecAt(segs, k - 1) && sp == RecAt(segs, k) && top == h0.top
        invariant footprint == Total(segs) == Outstanding(traffic) && released == old(footprint) - footprint >= 0
        invariant Linked(mem, segs) && (releases ==> PassSafe(State()))
        invariant (Paged(h0.segs) ==> Paged(segs)) && (TailLarge(h0.segs) ==> TailLarge(segs))
        invariant Peak(traffic) == Peak(t0) && traffic == t0 + log
        invariant 0 <= nsegs && PassHalfway(live, h0.segs, segs, nsegs + 1, k, log)
        invariant dv == if WasOffered(log, h0.dv) then 0 else h0.dv
        decreases |segs| - k
      {
        RecordPlaces(mem, segs);
        ReadRecord(mem, segs, k);
        var base := mem[sp];
        var size := mem[sp + SEG_SIZE];
        var next := mem[sp + SEG_NEXT];
        nsegs := nsegs + 1;
        var freed: bool;
        ghost var calls: seq<SystemCall>;
        freed, calls := PassRound(sp, base, size, pred, next, k, h0, nsegs, log);
        Regroup(t0, log, calls);
        log := log + calls;
        if freed {
          released := Plus(released, size);
          footprint := footprint - size;
          sp := pred;
        }
        pred := sp;
        sp := next;
        if !freed {
          k := k + 1;
        }
      }
      RecordPlaces(mem, segs);
      EndOfList(mem, segs, k);
      PassEnds(live, h0.segs, segs, nsegs + 1, k, log);
    }

    /** `release_unused_segments`, lines 1407-1451 */
    method ReleaseUnusedSegments() returns (released: int)
      requires Good(State(), {}) && top != 0 && (releases ==> PassSafe(State()))
      requires footprint == Total(segs) == Outstanding(traffic) && maxFootprint == Peak(traffic)
      requires footprint <= capacity
      requires LegalGranularity(granularity) && maxReleaseCheckRate >= 0 && trimCheck >= DEFAULT_TRIM_THRESHOLD
      modifies `mem, `treemap, `ix, `dv, `dvsize, `cs, `segs, `footprint, `releaseChecks, `traffic
      ensures Valid() && LiveOf(cs) == old(LiveOf(cs)) && Untouched(old(mem), mem, LiveOf(cs))
      ensures released == old(footprint) - footprint >= 0
      ensures (old(WholeRegions()) ==> WholeRegions()) && (TailLarge(old(segs)) ==> TailLarge(segs))
      ensures old(traffic) <= traffic
      ensures PassRan(LiveOf(cs), old(Ledger()), Ledger(), maxReleaseCheckRate, Since(old(traffic), traffic))
      ensures dv == if WasOffered(Since(old(traffic), traffic), old(dv)) then 0 else old(dv)
    {
      hide Good, Untouched, LiveOf, Total, Paged, TailLarge, LegalGranularity, PassSafe, Outstanding, Peak, PassLog,
           Left, WasOffered, Since;
      TopHasSegment(State());
      var nsegs: int;
      ghost var log: seq<SystemCall>;
      released, nsegs, log := PassLoop();
      SinceAppended(old(traffic), log);
      releaseChecks := if nsegs < ReleaseCheckTarget() then ReleaseCheckTarget() else nsegs;
    }

    /** Lines 1356-1372 of `sys_trim`: offers whole units from the end of the segment that holds top. */
    method OfferTop(pad: int) returns (sp: int, released: int, ghost log: seq<SystemCall>)
      requires Good(State(), {}) && top != 0 && topsize > pad >= TOP_FOOT_SIZE && LegalGranularity(granularity)
      modifies `mem, `traffic
      ensures segs != [] && sp == SEG && 0 <= released < topsize - pad && traffic == old(traffic) + log
      ensures TopTrimmed(Ledger(), topsize - released, pad, granularity, log)
      ensures released == 0 ==> mem == old(mem)
      ensures Shrunk(old(mem), mem, End(segs[0]) - released, End(segs[0])) && released % 16 == 0
      ensures granularity % MIN_REGION == 0 ==> released % MIN_REGION == 0
      ensures Outstanding(traffic) == Outstanding(old(traffic)) - released && Peak(traffic) == Peak(old(traffic))
    {
      hide Good, Linked, LegalGranularity, TrimAmount, TrimWord, Outstanding, Peak, TopTrimmed, Shrunk, EndOffered;
      ghost var h0 := State();
      TrimReady(h0);
      GranularityFacts(granularity);
      var unit := granularity;
      var extra := TrimWord(topsize, pad, unit);
      TrimWraps(topsize, pad, unit);
      TrimBounds(topsize, pad, unit);
      ghost var i: int;
      sp, i := SegmentHolding(top);
      HeadFirst(h0, i);
      released := 0;
      log := [];
      ReadRecord(mem, segs, 0);
      if mem[sp + SEG_FLAGS] % 2 == 0 {
        released, log := OfferEnd(sp, extra);
      }
      TopOffered(Ledger(), pad, unit, extra, released, log);
    }

    /** Lines 1363-1371 of `sys_trim`: offers the last `extra` bytes of the head segment if parts may be released. */
    method OfferEnd(sp: int, extra: int) returns (released: int, ghost log: seq<SystemCall>)
      requires Good(State(), {}) && top != 0 && segs != [] && sp == SEG && 0 <= extra <= topsize
      modifies `mem, `traffic
      ensures (released == 0 || released == extra) && (released == 0 ==> mem == old(mem))
      ensures Shrunk(old(mem), mem, End(segs[0]) - released, End(segs[0])) && traffic == old(traffic) + log
      ensures EndOffered(segs[0], extra, released, log)
      ensures Outstanding(traffic) == Outstanding(old(traffic)) - released && Peak(traffic) == Peak(old(traffic))
    {
      hide Good, Linked, Outstanding, Peak, Shrunk;
      ghost var h0, t0 := State(), traffic;
      TrimReady(h0);
      ReadRecord(mem, segs, 0);
      RecordPlaces(mem, segs);
      NothingTaken(mem, End(segs[0]));
      released := 0;
      var canRelease := CanReleasePart(mem[sp + SEG_FLAGS] / 2);
      log := [MayRelease(canRelease)];
      ghost var t1 := traffic;
      OneMoreCall(t0, MayRelease(canRelease));
      if canRelease {
        var linked := HasSegmentLink(sp, 0);
        NoLinkInHead(h0);
        assert !linked;
        if mem[sp + SEG_SIZE] >= extra && !linked {
          var newsize := mem[sp + SEG_SIZE] - extra;
          var ok := SystemFreePart(mem[sp], mem[sp + SEG_SIZE], newsize);
          log := [MayRelease(true), OfferedPart(h0.segs[0].base, h0.segs[0].size, newsize, ok)];
          OneMoreCall(t1, log[1]);
          if ok {
            released := extra;
            NothingShrunk(h0.m, mem, End(segs[0]) - extra, End(segs[0]));
          }
        }
      }
    }

    /**
     Lines 1354-1384 of `sys_trim`: gives back whole units from the end of the segment that holds top, if top has more
     than `pad` bytes.
     */
    method TrimTop(pad: int) returns (released: int)
      requires Valid() && top != 0 && pad >= TOP_FOOT_SIZE
      modifies `mem, `top, `topsize, `trimCheck, `cs, `segs, `footprint, `traffic
      ensures Valid() && LiveOf(cs) == old(LiveOf(cs)) && Untouched(old(mem), mem, LiveOf(cs))
      ensures released == old(footprint) - footprint == old(topsize) - topsize >= 0 && top == old(top)
      ensures if old(topsize) > pad then topsize > pad else topsize == old(topsize)
      ensures (old(WholeRegions()) ==> WholeRegions()) && (TailLarge(old(segs)) ==> TailLarge(segs))
      ensures PassSafe(old(State())) ==> PassSafe(State())
      ensures old(traffic) <= traffic
      ensures TopTrimmed(old(Ledger()), topsize, pad, granularity, Since(old(traffic), traffic))
      ensures segs == HeadCut(old(Ledger()), topsize).segs && trimCheck == HeadCut(old(Ledger()), topsize).trimCheck
    {
      hide Good, Untouched, LiveOf, Linked, Total, Paged, TailLarge, LegalGranularity, PassSafe, Outstanding, Peak,
           TopTrimmed;
      ghost var h0, b0 := State(), Ledger();
      UntouchedSelf(h0, {});
      TopHasSegment(h0);
      GranularityFacts(granularity);
      TrimIsPaged(granularity);
      NoTrim(b0, pad, granularity);
      released := 0;
      SinceNothing(traffic);
      if topsize > pad {
        var sp: int;
        ghost var log: seq<SystemCall>;
        sp, released, log := OfferTop(pad);
        SinceAppended(old(traffic), log);
        if released != 0 {
          ShrinkTop(sp, released, h0);
        }
      }
    }

    /** Lines 1375-1382 of `sys_trim`. */
    method ShrinkTop(sp: int, released: int, ghost h0: Heap)
      requires Good(h0, {}) && h0.top != 0 && State() == h0.(m := mem) && h0.segs != [] && sp == SEG
      requires 0 < released < h0.topsize && released % 16 == 0
      requires Shrunk(h0.m, mem, End(h0.segs[0]) - released, End(h0.segs[0]))
      modifies `mem, `top, `topsize, `trimCheck, `cs, `segs, `footprint
      ensures Good(State(), {}) && LiveOf(cs) == LiveOf(h0.cs) && Untouched(h0.m, mem, LiveOf(h0.cs))
      ensures Total(segs) == Total(h0.segs) - released && segs != [] && trimCheck == DEFAULT_TRIM_THRESHOLD
      ensures Paged(h0.segs) && released % MIN_REGION == 0 ==> Paged(segs)
      ensures (TailLarge(h0.segs) ==> TailLarge(segs)) && (PassSafe(h0) ==> PassSafe(State()))
      ensures top == h0.top && topsize == h0.topsize - released && footprint == old(footprint) - released
      ensures segs == h0.segs[0 := h0.segs[0].(size := h0.segs[0].size - released)]
    {
      hide Good, Untouched, LiveOf, Total, Paged, TailLarge, TopMade, Shrunk, EndMoved, TopWrites, PassSafe;
      ghost var m1 := mem;
      Tail(h0, {});
      TrimHeld(h0, m1, released);
      mem := mem[sp + SEG_SIZE := mem[sp + SEG_SIZE] - released];
      footprint := footprint - released;
      var t := top;
      var size := topsize - released;
      InitTop(t, size);
      TopWritesIs(m1, h0, -released);
      TrimmedHeap(h0, m1, mem, released);
      TrimFewer(h0, mem, h0.top + h0.topsize - released);
      ghost var h' := EndMoved(h0, mem, h0.top + h0.topsize - released);
      TailBehindHead(h0.segs, h'.segs);
      if PassSafe(h0) {
        SafeBehindHead(h0, h');
      }
      cs := h'.cs;
      segs := h'.segs;
    }

    /** Lines 1385-1389 of `sys_trim`: the release pass, after a trim of top has given back `trimmed` bytes. */
    method ReleaseAfterTrim(trimmed: int) returns (released: int)
      requires Valid() && segs != [] && (releases ==> PassSafe(State())) && 0 <= trimmed
      requires trimmed + footprint <= WORD_LIMIT - HEAP_START
      modifies `mem, `treemap, `ix, `dv, `dvsize, `cs, `segs, `trimCheck, `footprint, `releaseChecks, `traffic
      ensures Valid() && LiveOf(cs) == old(LiveOf(cs)) && Untouched(old(mem), mem, LiveOf(cs))
      ensures released == trimmed + old(footprint) - footprint && footprint <= old(footprint)
      ensures (old(WholeRegions()) ==> WholeRegions()) && (TailLarge(old(segs)) ==> TailLarge(segs))
      ensures old(traffic) <= traffic
      ensures PassRan(LiveOf(cs), old(Ledger()), Ledger().(trimCheck := old(trimCheck)), maxReleaseCheckRate,
                      Since(old(traffic), traffic))
      ensures trimCheck == if released == 0 && topsize > old(trimCheck) then 0xFFFF_FFFF_FFFF_FFFF else old(trimCheck)
      ensures dv == if WasOffered(Since(old(traffic), traffic), old(dv)) then 0 else old(dv)
    {
      hide Good, Untouched, LiveOf, LegalGranularity, Total, Paged, TailLarge, MaxRequest, PassSafe, Outstanding, Peak,
           WasOffered, PassRan, Since, WholeRegions, Countdown;
      TopHasSegment(State());
      var more := ReleaseUnusedSegments();
      FootprintBound(State(), {});
      ghost var after := Ledger();
      released := Plus(trimmed, more);
      if released == 0 && topsize > trimCheck {
        trimCheck := WORD_LIMIT - 1;
      }
      assert Ledger().(trimCheck := old(trimCheck)) == after;
    }

    /** Lines 1353-1389 of `sys_trim`, with top and the request to leave `pad` bytes of it. */
    method TrimAndRelease(pad: int) returns (released: int)
      requires Valid() && 0 <= pad < MaxRequest(granularity) && top != 0 && (releases ==> PassSafe(State()))
      modifies `mem, `treemap, `ix, `dv, `dvsize, `cs, `segs, `top, `topsize, `trimCheck, `footprint, `releaseChecks,
        `traffic
      ensures Valid() && LiveOf(cs) == old(LiveOf(cs)) && Untouched(old(mem), mem, LiveOf(cs))
      ensures released == old(footprint) - footprint >= 0 && top == old(top) && topsize <= old(topsize)
      ensures if old(topsize) > pad + TOP_FOOT_SIZE then topsize > pad + TOP_FOOT_SIZE else topsize == old(topsize)
      ensures (old(WholeRegions()) ==> WholeRegions()) && (TailLarge(old(segs)) ==> TailLarge(segs))
      ensures old(traffic) <= traffic
      ensures TrimRan(LiveOf(cs), old(Ledger()), Ledger(), pad, granularity, maxReleaseCheckRate,
                      Since(old(traffic), traffic))
      ensures dv == if WasOffered(Since(old(traffic), traffic), old(dv)) then 0 else old(dv)
    {
      hide Good, Untouched, LiveOf, LegalGranularity, Total, Paged, TailLarge, MaxRequest, PassSafe, Outstanding, Peak,
           WasOffered, TopTrimmed, TrimRan, PassRan, HeadCut, Since, WholeRegions, Countdown;
      ghost var h0, b0, t0 := State(), Ledger(), traffic;
      TopHasSegment(h0);
      assert pad + TOP_FOOT_SIZE < WORD_LIMIT by { MaxRequestRoom(pad, granularity); }
      var pad' := Plus(pad, TOP_FOOT_SIZE);
      released := TrimTop(pad');
      ghost var h1, mid, t1 := State(), Ledger(), traffic;
      FootprintBound(h0, {});
      TopHasSegment(h1);
      released := ReleaseAfterTrim(released);
      UntouchedTrans(h0.m, h1.m, mem, LiveOf(cs));
      TrimOfParts(LiveOf(cs), b0, mid, Ledger(), pad, granularity, maxReleaseCheckRate, Since(t0, t1),
                  Since(t1, traffic));
      TrimVictim(b0, mid.topsize, pad', granularity, t0, t1, traffic, h0.dv);
    }

    /** `sys_trim`, lines 1351-1393 */
    method SysTrim(pad: int) returns (r: bool)
      requires Valid() && 0 <= pad && (releases ==> PassSafe(State()) || pad >= MaxRequest(granularity))
      modifies `mem, `treemap, `ix, `dv, `dvsize, `cs, `segs, `top, `topsize, `trimCheck, `footprint, `releaseChecks,
        `traffic
      ensures Valid() && LiveOf(cs) == old(LiveOf(cs)) && Untouched(old(mem), mem, LiveOf(cs))
      ensures footprint <= old(footprint) && (r <==> footprint < old(footprint))
      ensures top == old(top) && topsize <= old(topsize)
      ensures old(topsize) > pad + TOP_FOOT_SIZE ==> topsize > pad + TOP_FOOT_SIZE
      ensures old(topsize) <= pad + TOP_FOOT_SIZE ==> topsize == old(topsize)
      ensures (old(WholeRegions()) ==> WholeRegions()) && (TailLarge(old(segs)) ==> TailLarge(segs))
      ensures old(traffic) <= traffic
      ensures if pad >= MaxRequest(granularity) || old(segs) == []
        then traffic == old(traffic) && Ledger() == old(Ledger())
        else TrimRan(LiveOf(cs), old(Ledger()), Ledger(), pad, granularity, maxReleaseCheckRate,
                     Since(old(traffic), traffic))
      ensures dv == if WasOffered(Since(old(traffic), traffic), old(dv)) then 0 else old(dv)
    {
      hide Good, Untouched, LiveOf, LegalGranularity, Total, Paged, TailLarge, MaxRequest, PassSafe, Outstanding, Peak,
           WasOffered, TrimRan, Since;
      SinceNothing(traffic);
      TopHasSegment(State());
      UntouchedSelf(State(), {});
      var released := 0;
      if pad < MaxRequest(granularity) && top != 0 {
        released := TrimAndRelease(pad);
      }
      r := released != 0;
    }

    // ---------- free ----------

    /** `dispose_chunk`, lines 721-779 */
    method DisposeChunk(p: int, psize: int)
      requires Good(State(), {}) && p in cs && cs[p].kind.Live? && cs[p].size == psize
      modifies `mem, `smallmap, `treemap, `ix, `cs, `dv, `dvsize, `top, `topsize
      ensures Good(State(), {}) && Freed(old(State()), State(), p) && VictimFreed(old(State()), dv, p, [])
    {
      hide Good, Freed, Untouched, LiveOf, VictimFreed;
      ghost var h0 := State();
      var where := Coalesce(p, psize);
      if where.ToBin? {
        ghost var h1 := State();
        PutInBin(where.chunk, where.size, {where.chunk});
        assert {where.chunk} - {where.chunk} == {};
        FreedThen(h0, h1, State(), p);
      }
    }

    /** `should_trim`, lines 1347-1349 */
    predicate ShouldTrim(size: int)
      reads `trimCheck
    {
      size > trimCheck
    }

    /** `free`, lines 1267-1345 */
    method Free(ptr: int)
      requires Valid() && ptr - MEM_OFFSET in LiveOf(cs) && FreeSafe(ptr - MEM_OFFSET)
      modifies `mem, `smallmap, `treemap, `ix, `cs, `segs, `dv, `dvsize, `top, `topsize, `trimCheck, `footprint,
        `releaseChecks, `traffic
      ensures Valid() && Freed(old(State()), State(), ptr - MEM_OFFSET)
      ensures footprint <= old(footprint)
      ensures Reduced(old(Ledger()), Ledger(), old(PassUnreached(ptr - MEM_OFFSET)))
      ensures old(PassUnreached(ptr - MEM_OFFSET)) ==> traffic == old(traffic)
      ensures old(traffic) <= traffic
      ensures FreeRan(old(State()), old(Ledger()), Ledger(), ptr - MEM_OFFSET, granularity, maxReleaseCheckRate,
                      Since(old(traffic), traffic))
      ensures VictimFreed(old(State()), dv, ptr - MEM_OFFSET, Since(old(traffic), traffic))
    {
      hide Good, Freed, Untouched, LiveOf, LegalGranularity, Total, Paged, TailLarge, PassSafe, Size, Outstanding, Peak,
           PassRan, MergesVictim, VictimFreed, FreeFrom, FreeTo, WasOffered, Since, IsSmall, MaybeTrimmed;
      ghost var h0, b0, quiet := State(), Ledger(), PassUnreached(ptr - MEM_OFFSET);
      var p := ptr - MEM_OFFSET;
      LiveIs(h0, p);
      ReadTags(h0, {}, p);
      ChunkHasTop(h0, {}, p);
      SinceNothing(traffic);
      var psize := Size(mem[p + HEAD]);
      var where := Coalesce(p, psize);
      FreedLive(h0, State(), p);
      if where.InTop? {
        assert Ledger() == b0.(topsize := topsize);
        ghost var t := topsize;
        FreeToTop(h0, p, quiet);
        FreedLive(h0, State(), p);
        TrimmedFrom(LiveOf(cs), b0, t, Ledger(), granularity, maxReleaseCheckRate, Since(old(traffic), traffic));
      } else if where.ToBin? {
        FreeToBin(where.chunk, where.size, h0, p);
        FreedLive(h0, State(), p);
      }
    }

    /** Lines 1311-1313 of `free`: the block has joined top, which may have become too large. */
    method FreeToTop(ghost h0: Heap, ghost p: int, ghost quiet: bool)
      requires Valid() && Freed(h0, State(), p) && VictimFreed(h0, dv, p, []) && !MergesVictim(h0, p)
      requires segs != []
      requires releases ==> TailLarge(segs) || quiet
      requires quiet ==> topsize <= trimCheck || footprint <= trimCheck
      modifies `mem, `treemap, `ix, `dv, `dvsize, `cs, `segs, `top, `topsize, `trimCheck, `footprint, `releaseChecks,
        `traffic
      ensures Valid() && Freed(h0, State(), p) && footprint <= old(footprint)
      ensures Reduced(old(Ledger()), Ledger(), quiet) && (quiet ==> traffic == old(traffic))
      ensures old(traffic) <= traffic && VictimFreed(h0, dv, p, Since(old(traffic), traffic))
      ensures MaybeTrimmed(LiveOf(cs), old(Ledger()), old(topsize), Ledger(), granularity, maxReleaseCheckRate,
                           Since(old(traffic), traffic))
    {
      hide Good, Freed, Untouched, LiveOf, LegalGranularity, Total, Paged, TailLarge, PassSafe, Outstanding, Peak,
           TrimRan, MergesVictim, VictimFreed, WasOffered, Since;
      ghost var h1 := State();
      SinceNothing(traffic);
      TopHasSegment(h1);
      TopInFootprint(h1);
      if ShouldTrim(topsize) {
        assert !quiet;
        if releases {
          TailIsSafe(h1);
        }
        MaxRequestPositive(granularity);
        assert Ledger() == Ledger().(topsize := topsize);
        var trimmed := SysTrim(0);
        FreedThen(h0, h1, State(), p);
        VictimThen(h0, h1.dv, dv, p, Since(old(traffic), traffic));
      }
    }

    /** Lines 1334-1343 of `free`: the block is a free chunk of its own, with what was free around it. */
    method FreeToBin(chunk: int, size: int, ghost h0: Heap, ghost p: int)
      requires Good(State(), {chunk}) && Accounted() && chunk in cs && cs[chunk].size == size
      requires Freed(h0, State(), p) && segs != []
      requires releases && !IsSmall(size) ==> TailLarge(segs) || releaseChecks > 1
      requires VictimFreed(h0, dv, p, []) && !MergesVictim(h0, p)
      modifies `mem, `smallmap, `treemap, `ix, `cs, `segs, `dv, `dvsize, `footprint, `releaseChecks, `traffic
      ensures Valid() && Freed(h0, State(), p) && footprint <= old(footprint)
      ensures Reduced(old(Ledger()), Ledger(), old(releaseChecks) > 1)
      ensures old(traffic) <= traffic && VictimFreed(h0, dv, p, Since(old(traffic), traffic))
      ensures if IsSmall(size) then traffic == old(traffic) && Ledger() == old(Ledger())
        else if old(releaseChecks) > 1
        then traffic == old(traffic) && Ledger() == old(Ledger()).(countdown := old(releaseChecks) - 1)
        else PassRan(LiveOf(cs), old(Ledger()), Ledger(), maxReleaseCheckRate, Since(old(traffic), traffic))
    {
      hide Good, Freed, Untouched, LiveOf, LegalGranularity, Total, Paged, TailLarge, IsSmall, Outstanding, Peak,
           PassRan, MergesVictim, VictimFreed, Since;
      SinceNothing(traffic);
      if IsSmall(size) {
        ghost var h1 := State();
        PutInBin(chunk, size, {chunk});
        assert {chunk} - {chunk} == {};
        FreedThen(h0, h1, State(), p);
      } else {
        FreeLarge(chunk, size, h0, p);
      }
    }

    /** The end of `free`, lines 1338-1343: a large chunk counts towards the next release pass. */
    method FreeLarge(chunk: int, size: int, ghost h0: Heap, ghost p: int)
      requires Good(State(), {chunk}) && Accounted() && chunk in cs && cs[chunk].size == size && !IsSmall(size)
      requires Freed(h0, State(), p) && segs != [] && (releases ==> TailLarge(segs) || releaseChecks > 1)
      requires VictimFreed(h0, dv, p, []) && !MergesVictim(h0, p)
      modifies `mem, `treemap, `ix, `cs, `segs, `dv, `dvsize, `footprint, `releaseChecks, `traffic
      ensures Valid() && Freed(h0, State(), p) && footprint <= old(footprint)
      ensures Reduced(old(Ledger()), Ledger(), old(releaseChecks) > 1)
      ensures old(traffic) <= traffic && VictimFreed(h0, dv, p, Since(old(traffic), traffic))
      ensures if old(releaseChecks) > 1
        then traffic == old(traffic) && Ledger() == old(Ledger()).(countdown := old(releaseChecks) - 1)
        else PassRan(LiveOf(cs), old(Ledger()), Ledger(), maxReleaseCheckRate, Since(old(traffic), traffic))
    {
      hide Good, Freed, Untouched, LiveOf, LegalGranularity, Total, Paged, TailLarge, PassSafe, IsSmall, Outstanding,
           Peak, PassLog, Left, MergesVictim, VictimFreed, WasOffered, Since;
      ghost var h1 := State();
      SinceNothing(traffic);
      assert segs != [] && top != 0 by { ChunkHasTop(h1, {chunk}, chunk); }
      PutLarge(chunk, size);
      ghost var h2 := State();
      FreedThen(h0, h1, h2, p);
      releaseChecks := releaseChecks - 1;
      if releaseChecks == 0 {
        if releases {
          TailIsSafe(h2);
        }
        var released := ReleaseUnusedSegments();
        FreedThen(h0, h2, State(), p);
        VictimThen(h0, h1.dv, dv, p, Since(old(traffic), traffic));
      }
    }

    // ---------- realloc ----------

    /** `try_realloc_chunk`, lines 539-611 */
    method TryReallocChunk(p: int, nb: int, canMove: bool, ghost req: int) returns (newp: int)
      requires Good(State(), {}) && p in cs && cs[p].kind.Live? && Fits(req, nb)
      modifies `mem, `smallmap, `treemap, `ix, `cs, `dv, `dvsize, `top, `topsize
      ensures Good(State(), {}) && (newp == 0 || newp == p)
      ensures newp == 0 ==> State() == old(State())
      ensures newp == p ==> p != 0 && Resized(old(State()), State(), p, req, nb)
      ensures newp == p <==> RoomInPlace(old(State()), p, nb)
      ensures newp == p ==> dv == VictimResized(old(State()), p, nb)
    {
      hide Good, Resized, Fits, Retile, Size;
      ghost var h0 := State();
      ReadBehind(h0, p);
      var oldsize := Size(mem[p + HEAD]);
      var next := p + oldsize;
      newp := 0;
      assert !Mmapped(mem[p + HEAD]);
      if oldsize >= nb {
        ShrinkInPlace(p, nb, oldsize, req);
        newp := p;
      } else if next == top {
        if Plus(oldsize, topsize) <= nb {
          return;
        }
        TakeFromTop(p, nb, oldsize, req);
        newp := p;
      } else if next == dv {
        if Plus(oldsize, dvsize) < nb {
          return;
        }
        TakeFromVictim(p, nb, oldsize, req);
        newp := p;
      } else if !Cinuse(mem[next + HEAD]) {
        var nextsize := Size(mem[next + HEAD]);
        if Plus(oldsize, nextsize) < nb {
          return;
        }
        TakeFromNext(p, nb, oldsize, nextsize, req);
        newp := p;
      }
    }

    /** Lines 559-566: the block grows into top. */
    method TakeFromTop(p: int, nb: int, oldsize: int, ghost req: int)
      requires Good(State(), {}) && p in cs && cs[p].kind.Live? && cs[p].size == oldsize < nb && Fits(req, nb)
      requires p + oldsize == top && top != 0 && oldsize + topsize > nb
      modifies `mem, `cs, `top, `topsize
      ensures Good(State(), {}) && Resized(old(State()), State(), p, req, nb)
    {
      hide Good, Resized, Fits, Retile, SetInuse;
      ghost var h0 := State();
      ChunkEnds(h0, {}, p);
      WordTop(h0);
      GrowIntoTop(h0, p, nb, req);
      BlockAndTopFields(h0, p, p + nb, top + topsize, req);
      cs := BlockAndTop(h0, p, p + nb, top + topsize, req).cs;
      var newsize := Plus(oldsize, topsize);
      var newtopsize := newsize - nb;
      var newtop := p + nb;
      mem := SetInuse(mem, p, nb);
      mem := mem[newtop + HEAD := Head(newtopsize, true, false)];
      top := newtop;
      topsize := newtopsize;
    }

    /** Lines 545-553: the block is large enough; a rest of at least a minimum chunk is split off and freed. */
    method ShrinkInPlace(p: int, nb: int, oldsize: int, ghost req: int)
      requires Good(State(), {}) && p in cs && cs[p].kind.Live? && cs[p].size == oldsize >= nb && Fits(req, nb)
      modifies `mem, `smallmap, `treemap, `ix, `cs, `dv, `dvsize, `top, `topsize
      ensures Good(State(), {}) && Resized(old(State()), State(), p, req, nb)
      ensures dv == if p + oldsize == old(dv) && oldsize - nb >= MIN_CHUNK_SIZE then p + nb else old(dv)
    {
      hide Good, Resized, Fits, Retile, CutMade, SetInuse;
      ghost var h0 := State();
      var rsize := oldsize - nb;
      if rsize >= MIN_CHUNK_SIZE {
        CutBlock(h0, p, nb, req);
        ghost var h1 := TwoBlocks(h0, p, p + nb, p + oldsize, req, rsize - CHUNK_OVERHEAD);
        var r := p + nb;
        mem := SetInuse(mem, p, nb);
        mem := SetInuse(mem, r, rsize);
        cs := h1.cs;
        assert State() == h1;
        DisposeCut(p, r, rsize, h0, h0, nb, req);
      } else {
        KeepBlock(h0, p, req, nb);
        cs := OneBlock(h0, p, p + oldsize, req).cs;
      }
    }

    /** Frees the second part of a block that has been cut. */
    method DisposeCut(p: int, r: int, rsize: int, ghost h0: Heap, ghost h1: Heap, ghost nb: int, ghost req: int)
      requires Good(h0, {}) && h0.cs == h1.cs && p in h0.cs && h0.cs[p].kind.Live? && r == p + nb
      requires CutMade(h0, h1, State(), p, nb, req) && RestIs(State(), r, rsize)
      modifies `mem, `smallmap, `treemap, `ix, `cs, `dv, `dvsize, `top, `topsize
      ensures Good(State(), {}) && Resized(h0, State(), p, req, nb)
      ensures dv == if r + rsize == old(dv) then r else old(dv)
    {
      hide Good, Resized, CutMade, Freed, FreeFrom, MergesVictim, VictimFreed;
      ghost var h2 := State();
      CutMadeGood(h0, h1, h2, p, nb, req);
      CutIsPinned(h0, h1, h2, p, nb, req);
      FreeSpan(h2, r);
      VictimNotTop(h2);
      ReadTags(h2, {}, r);
      WhereFree(h2, {}, r);
      DisposeChunk(r, rsize);
      CutResized(h0, h1, h2, State(), p, nb, req);
    }

    /** Lines 567-589: the block grows into the designated victim. */
    method TakeFromVictim(p: int, nb: int, oldsize: int, ghost req: int)
      requires Good(State(), {}) && p in cs && cs[p].kind.Live? && cs[p].size == oldsize < nb && Fits(req, nb)
      requires p + oldsize == dv && dv != 0 && oldsize + dvsize >= nb
      modifies `mem, `cs, `dv, `dvsize
      ensures Good(State(), {}) && Resized(old(State()), State(), p, req, nb)
      ensures dv == if oldsize + old(dvsize) - nb >= MIN_CHUNK_SIZE then p + nb else 0
    {
      hide Good, Resized, Fits, Retile, SetInuse, BlockAndFree, SetSizeAndPinuseOfFreeChunk, ClearPinuse, Untouched,
           LiveOf;
      ghost var h0 := State();
      VictimReads(h0, {});
      ChunkEnds(h0, {}, p);
      ChunkEnds(h0, {}, dv);
      FitsPositive(req, nb);
      var dvs := dvsize;
      var dsize := Plus(oldsize, dvs) - nb;
      if dsize >= MIN_CHUNK_SIZE {
        GrowIntoVictim(h0, p, nb, req);
        BlockAndFreeFields(NoVictim(h0), p, p + nb, dv + dvsize, req);
        VictimShrunkWrites(h0, p, nb, req);
        var r := p + nb;
        var n := r + dsize;
        mem := SetInuse(mem, p, nb);
        mem := SetSizeAndPinuseOfFreeChunk(mem, r, dsize);
        mem := mem[n + HEAD := ClearPinuse(mem[n + HEAD])];
        cs := VictimShrunk(h0, p, nb, req).cs;
        dvsize := dsize;
        dv := r;
      } else {
        VictimToHole(h0, {});
        assert {} + {dv} == {dv};
        UntouchedSelf(h0, {});
        GrowWhole(h0, NoVictim(h0), p, dv, nb, req);
        cs := OneBlock(NoVictim(h0), p, dv + dvsize, req).cs;
        var newsize := Plus(oldsize, dvs);
        mem := SetInuse(mem, p, newsize);
        dvsize := 0;
        dv := 0;
      }
    }

    /** Lines 590-607: the block grows into the binned chunk behind it. */
    method TakeFromNext(p: int, nb: int, oldsize: int, nextsize: int, ghost req: int)
      requires Good(State(), {}) && p in cs && cs[p].kind.Live? && cs[p].size == oldsize < nb && Fits(req, nb)
      requires p + oldsize in ix.sizes && ix.sizes[p + oldsize] == nextsize && oldsize + nextsize >= nb
      modifies `mem, `smallmap, `treemap, `ix, `cs, `dv, `dvsize, `top, `topsize
      ensures Good(State(), {}) && Resized(old(State()), State(), p, req, nb) && dv == old(dv)
    {
      hide Good, Resized, Fits, Retile, CutMade, SetInuse, Untouched, LiveOf;
      ghost var h0 := State();
      var next := p + oldsize;
      BinnedSize(h0, {}, next);
      ChunkEnds(h0, {}, p);
      ChunkEnds(h0, {}, next);
      var rsize := Plus(oldsize, nextsize) - nb;
      TakeFromBin(next, nextsize, {});
      assert {} + {next} == {next};
      ghost var h1 := State();
      UsedBehind(h0, next);
      if rsize < MIN_CHUNK_SIZE {
        GrowWhole(h0, h1, p, next, nb, req);
        var newsize := Plus(oldsize, nextsize);
        mem := SetInuse(mem, p, newsize);
        cs := OneBlock(h1, p, next + nextsize, req).cs;
      } else {
        GrowCut(h0, h1, p, next, nb, req);
        ghost var h2 := TwoBlocks(h1, p, p + nb, next + nextsize, req, rsize - CHUNK_OVERHEAD);
        var r := p + nb;
        mem := SetInuse(mem, p, nb);
        mem := SetInuse(mem, r, rsize);
        cs := h2.cs;
        assert State() == h2;
        DisposeCut(p, r, rsize, h0, h1, nb, req);
      }
    }

    /** `ptr::copy_nonoverlapping` */
    method CopyNonoverlapping(src: int, dst: int, n: int)
      requires n >= 0 && (src + n <= dst || dst + n <= src)
      requires Held(mem, src, src + n) && Held(mem, dst, dst + n)
      modifies `mem
      ensures Copied(old(mem), mem, src, dst, n)
    {
      var i := 0;
      while i < n
        invariant 0 <= i <= n && Copied(old(mem), mem, src, dst, i)
      {
        mem := mem[dst + i := mem[src + i]];
        i := i + 1;
      }
    }

    /** `realloc`, lines 519-537 */
    method Realloc(ptr: int, bytes: int) returns (r: int)
      requires Valid() && ptr - MEM_OFFSET in LiveOf(cs) && 0 <= bytes < WORD_LIMIT
      requires
        || bytes >= MaxRequest(granularity) || RoomInPlace(State(), ptr - MEM_OFFSET, Request2Size(bytes))
        || MoveSafe(Request2Size(bytes))
      modifies `mem, `smallmap, `treemap, `ix, `cs, `segs, `dv, `dvsize, `top, `topsize, `trimCheck, `footprint,
        `maxFootprint, `releaseChecks, `denials, `traffic
      ensures Valid() && Shifted(old(Ledger()), Ledger(), old(Calm()))
      ensures r == 0 ==> State() == old(State())
      ensures denials == old(denials) + if r == 0 && bytes < MaxRequest(granularity) then 1 else 0
      ensures r != 0 ==>
        Reallocated(old(State()), State(), ptr - MEM_OFFSET, r - MEM_OFFSET, bytes, Request2Size(bytes),
                    Kept(old(LiveOf(cs)), ptr - MEM_OFFSET, bytes))
      ensures bytes < MaxRequest(granularity) ==>
        (r == ptr <==> RoomInPlace(old(State()), ptr - MEM_OFFSET, Request2Size(bytes)))
      ensures bytes < MaxRequest(granularity) && r == ptr ==>
        dv == VictimResized(old(State()), ptr - MEM_OFFSET, Request2Size(bytes))
      ensures bytes >= MaxRequest(granularity) || RoomInPlace(old(State()), ptr - MEM_OFFSET, Request2Size(bytes)) ==>
        traffic == old(traffic) && segs == old(segs)
      ensures r == 0 ==> SystemUsed(old(State()), old(traffic), traffic, granularity, bytes, r)
    {
      hide Good, Reallocated, Resized, Fits, LegalGranularity, Total, Paged, AllLarge, MaxRequest, Request2Size, Size,
           LiveOf, InHand, RoomInPlace, Outstanding, Peak, SystemUsed, Requested, VictimServed;
      GranularityFacts(granularity);
      NotAsked(State(), traffic, granularity, bytes);
      if bytes >= MaxRequest(granularity) {
        return 0;
      }
      ghost var h0 := State();
      var nb := Request2Size(bytes);
      Request2SizeFits(bytes);
      var oldp := ptr - MEM_OFFSET;
      LiveIs(h0, oldp);
      assert oldp > 0 by { ReadTags(h0, {}, oldp); }
      var newp := TryReallocChunk(oldp, nb, true, bytes);
      if newp != 0 {
        InPlace(h0, State(), oldp, bytes, nb);
        r := newp + MEM_OFFSET;
        return;
      }
      r := MoveElsewhere(ptr, bytes, nb);
    }

    /** Lines 530-536: the block is moved to a new place, if there is one. */
    method MoveElsewhere(ptr: int, bytes: int, ghost nb: int) returns (r: int)
      requires Valid() && ptr - MEM_OFFSET in LiveOf(cs) && 0 <= bytes < WORD_LIMIT && bytes < MaxRequest(granularity)
      requires nb == Request2Size(bytes) && MoveSafe(nb)
      modifies `mem, `smallmap, `treemap, `ix, `cs, `segs, `dv, `dvsize, `top, `topsize, `trimCheck, `footprint,
        `maxFootprint, `releaseChecks, `denials, `traffic
      ensures Valid() && Shifted(old(Ledger()), Ledger(), old(Calm()))
      ensures r == 0 ==> State() == old(State()) && denials == old(denials) + 1
      ensures r == 0 ==> SystemUsed(old(State()), old(traffic), traffic, granularity, bytes, r)
      ensures r != 0 ==> r != ptr && denials == old(denials)
      ensures r != 0 ==>
        Reallocated(old(State()), State(), ptr - MEM_OFFSET, r - MEM_OFFSET, bytes, nb,
                    Kept(old(LiveOf(cs)), ptr - MEM_OFFSET, bytes))
    {
      hide Good, Allocated, Reallocated, Fits, LegalGranularity, Total, Paged, AllLarge, TailLarge, MaxRequest,
           Request2Size, Size, LiveOf, Served, InHand, RemainderKept, FromBins, IsSmall, Outstanding, Peak, SystemUsed,
           Requested, VictimServed;
      ghost var h0, oldp := State(), ptr - MEM_OFFSET;
      LiveHasTop(h0, oldp);
      r := Malloc(bytes);
      if r != 0 {
        AllocatedObtained(h0, State(), r - MEM_OFFSET, bytes, nb);
        AllocatedHasTop(h0, State(), r - MEM_OFFSET, bytes, nb);
        AllocatedNew(h0, State(), r - MEM_OFFSET, bytes, nb);
        var oc := OldCapacity(ptr - MEM_OFFSET, r - MEM_OFFSET, bytes, nb, h0);
        MoveBlock(ptr, r, if oc < bytes then oc else bytes, bytes, nb, h0);
      }
    }

    /** Line 532: the usable size of the old block. */
    method OldCapacity(oldp: int, ghost q: int, ghost bytes: int, ghost nb: int, ghost h0: Heap) returns (oc: int)
      requires Good(State(), {}) && oldp in LiveOf(h0.cs) && Obtained(h0, State(), q, bytes, nb)
      ensures oc == LiveOf(h0.cs)[oldp].size - CHUNK_OVERHEAD && oc >= 0
    {
      hide Good, Obtained, Size, Mmapped, LiveOf;
      CopyRoom(h0, State(), oldp, q, bytes, nb);
      assert !Mmapped(mem[oldp + HEAD]) by { LiveNotMmapped(State(), oldp); }
      oc := Size(mem[oldp + HEAD]) - CHUNK_OVERHEAD;
    }

    /** The first `n` bytes of the old block are copied to the new one. */
    method CopyOut(ptr: int, r: int, n: int, ghost bytes: int, ghost nb: int, ghost h0: Heap)
      requires Valid() && ptr - MEM_OFFSET in LiveOf(h0.cs) && Obtained(h0, State(), r - MEM_OFFSET, bytes, nb)
      requires 0 <= n <= LiveOf(h0.cs)[ptr - MEM_OFFSET].size - CHUNK_OVERHEAD && n <= bytes
      modifies `mem
      ensures Valid() && Copied(old(mem), mem, ptr, r, n) && Untouched(old(mem), mem, LiveOf(cs) - {r - MEM_OFFSET})
      ensures ptr - MEM_OFFSET in LiveOf(cs) && LiveOf(cs)[ptr - MEM_OFFSET] == LiveOf(h0.cs)[ptr - MEM_OFFSET]
      ensures r - MEM_OFFSET in LiveOf(cs) && n + CHUNK_OVERHEAD <= LiveOf(cs)[r - MEM_OFFSET].size
    {
      hide Good, Obtained, LegalGranularity, Total, Paged, LiveOf, Copied, Untouched, Outstanding, Peak;
      ghost var h1, oldp, q := State(), ptr - MEM_OFFSET, r - MEM_OFFSET;
      CopyRoom(h0, h1, oldp, q, bytes, nb);
      CopyNonoverlapping(ptr, r, n);
      CopyIsPayload(h1, mem, oldp, q, n);
    }

    /** Copies `n` bytes of the contents and frees the old block: lines 532-534 of `realloc`. */
    method MoveBlock(ptr: int, r: int, n: int, ghost bytes: int, ghost nb: int, ghost h0: Heap)
      requires Valid() && ptr - MEM_OFFSET in LiveOf(h0.cs) && (releases ==> TailLarge(segs) || Quiet())
      requires Obtained(h0, State(), r - MEM_OFFSET, bytes, nb)
      requires 0 <= n <= LiveOf(h0.cs)[ptr - MEM_OFFSET].size - CHUNK_OVERHEAD && n <= bytes
      modifies `mem, `smallmap, `treemap, `ix, `cs, `segs, `dv, `dvsize, `top, `topsize, `trimCheck, `footprint,
        `releaseChecks, `traffic
      ensures Valid() && Reallocated(h0, State(), ptr - MEM_OFFSET, r - MEM_OFFSET, bytes, nb, n)
      ensures Reduced(old(Ledger()), Ledger(), old(Quiet()))
    {
      hide Good, Obtained, Reallocated, LegalGranularity, Total, Paged, LiveOf, Copied, Freed, Untouched, Outstanding,
           Peak, FreeRan, VictimFreed;
      ghost var h1 := State();
      CopyOut(ptr, r, n, bytes, nb, h0);
      ghost var h2 := State();
      Free(ptr);
      Moved(h0, h1, h2, State(), ptr - MEM_OFFSET, r - MEM_OFFSET, bytes, nb, n);
    }

    // ---------- memalign ----------

    /** `memalign`, lines 656-717, for all calls but those whose padded request wraps around; see `AlignableIsExact`. */
    method Memalign(alignment: int, bytes: int) returns (r: int)
      requires Valid() && 0 <= bytes < WORD_LIMIT && Alignable(alignment, bytes, granularity)
      modifies `mem, `smallmap, `treemap, `ix, `cs, `segs, `dv, `dvsize, `top, `topsize, `trimCheck, `footprint,
        `maxFootprint, `releaseChecks, `denials, `traffic
      ensures Valid()
      ensures r == 0 ==> State() == old(State())
      ensures denials == old(denials) +
        if r == 0 && AlignedRequest(alignment, bytes) < MaxRequest(granularity) then 1 else 0
      ensures r != 0 ==> GuardHolds(alignment, granularity)
      ensures Extended(old(Ledger()), Ledger(), InHand(old(State()), Request2Size(AlignedRequest(alignment, bytes))))
      ensures r != 0 ==>
        AlignedBlock(old(State()), State(), r - MEM_OFFSET, bytes, Request2Size(bytes), alignment)
      ensures SystemUsed(old(State()), old(traffic), traffic, granularity, AlignedRequest(alignment, bytes), r)
    {
      hide Good, Allocated, AlignedBlock, Fits, LegalGranularity, Total, Paged, MaxRequest, Request2Size, LiveOf,
           AlignedTo, IsPowerOfTwo, NewBlock, Minus, GuardHolds, Served, InHand, RemainderKept, Outstanding, Peak,
           SystemUsed, Requested, VictimServed;
      ghost var h0 := State();
      AllIsTail(segs);
      var align := if alignment < MIN_CHUNK_SIZE then MIN_CHUNK_SIZE else alignment;
      PowerFacts(alignment);
      GuardOf(alignment, bytes, granularity);
      GranularityFacts(granularity);
      NotAsked(h0, traffic, granularity, AlignedRequest(alignment, bytes));
      if bytes >= Minus(MaxRequest(granularity), align) {
        return 0;
      }
      var nb := Request2Size(bytes);
      var req := (nb + align + MIN_CHUNK_SIZE - CHUNK_OVERHEAD) % WORD_LIMIT;
      r := Malloc(req);
      if r != 0 {
        ghost var r0 := r;
        r := AlignBlock(r, align, alignment, nb, bytes, h0);
        UsedAlike(h0, old(traffic), traffic, granularity, req, r0, r);
      }
    }

    /** Lines 669-716: cuts the aligned block out of the larger one. */
    method AlignBlock(ptr: int, align: int, ghost asked: int, nb: int, ghost bytes: int, ghost h0: Heap)
      returns (r: int)
      requires Good(State(), {}) && Good(h0, {}) && nb == Request2Size(bytes) && bytes >= 0 && IsPowerOfTwo(asked)
      requires align == if asked < MIN_CHUNK_SIZE then MIN_CHUNK_SIZE else asked
      requires Allocated(h0, State(), ptr - MEM_OFFSET, AlignedRequest(asked, bytes),
                         Request2Size(AlignedRequest(asked, bytes)))
      modifies `mem, `smallmap, `treemap, `ix, `cs, `dv, `dvsize, `top, `topsize
      ensures Good(State(), {}) && r != 0 && AlignedBlock(h0, State(), r - MEM_OFFSET, bytes, nb, asked)
    {
      hide Good, Allocated, AlignedBlock, Fits, Request2Size, LiveOf, AlignedTo, IsPowerOfTwo, NewBlock;
      PowerFacts(asked);
      Request2SizeFits(bytes);
      FitsPositive(bytes, nb);
      var p := ptr - MEM_OFFSET;
      FreshBlock(h0, State(), p, AlignedRequest(asked, bytes), Request2Size(AlignedRequest(asked, bytes)));
      RequestFits(AlignedRequest(asked, bytes));
      if !AlignedTo(ptr, align) {
        p := GiveBackLeader(p, align, nb, h0);
      }
      GiveBackTail(p, nb, bytes, h0);
      r := p + MEM_OFFSET;
      NewBlockPlace(h0, State(), p);
      AlignedToAsked(p + MEM_OFFSET, align, asked);
      AlignedIs(h0, State(), p, bytes, nb, asked);
    }

    /** Lines 670-698: moves to an aligned position and frees what lies before it. */
    method GiveBackLeader(p: int, alignment: int, nb: int, ghost h0: Heap) returns (newp: int)
      requires Good(State(), {}) && Good(h0, {}) && NewBlock(h0, State(), p)
      requires alignment >= MIN_CHUNK_SIZE && alignment % 16 == 0
      requires !AlignedTo(p + MEM_OFFSET, alignment) && nb >= MIN_CHUNK_SIZE && nb % 16 == 0
      requires LiveOf(cs)[p].size >= Request2Size(nb + alignment + MIN_CHUNK_SIZE - CHUNK_OVERHEAD)
      modifies `mem, `smallmap, `treemap, `ix, `cs, `dv, `dvsize, `top, `topsize
      ensures Good(State(), {}) && NewBlock(h0, State(), newp) && AlignedTo(newp + MEM_OFFSET, alignment)
      ensures LiveOf(cs)[newp].size >= nb
    {
      hide Good, Request2Size, LiveOf, AlignedTo, LeaderCut, Freed, SetInuse, Size;
      ghost var h := State();
      LiveIs(h, p);
      ReadTags(h, {}, p);
      AlignedRoom(p, alignment, nb, LiveOf(cs)[p].size);
      var mem' := p + MEM_OFFSET;
      var br := AlignUp(mem', alignment) - MEM_OFFSET;
      var pos := if br - p > MIN_CHUNK_SIZE then br else br + alignment;
      var leadsize := pos - p;
      newp := pos;
      var newsize := Size(mem[p + HEAD]) - leadsize;
      CutLeader(h, p, leadsize);
      LeaderFacts(h, p, leadsize);
      ghost var h1 := TwoBlocks(h, p, newp, p + cs[p].size, leadsize - CHUNK_OVERHEAD, newsize - CHUNK_OVERHEAD);
      mem := SetInuse(mem, newp, newsize);
      mem := SetInuse(mem, p, leadsize);
      cs := h1.cs;
      assert State() == h1;
      DisposeChunk(p, leadsize);
      LeaderFreed(h0, h, h1, State(), p, leadsize);
      LeaderRest(h, h1, State(), p, leadsize);
    }

    /** Lines 700-710: frees spare room at the end. */
    method GiveBackTail(p: int, nb: int, ghost req: int, ghost h0: Heap)
      requires Good(State(), {}) && NewBlock(h0, State(), p) && Fits(req, nb) && LiveOf(cs)[p].size >= nb
      modifies `mem, `smallmap, `treemap, `ix, `cs, `dv, `dvsize, `top, `topsize
      ensures Good(State(), {}) && NewBlock(h0, State(), p)
      ensures LiveOf(cs)[p].req == req && nb <= LiveOf(cs)[p].size <= nb + MIN_CHUNK_SIZE
    {
      hide Good, LiveOf, Fits, Freed, SetInuse, Size, CutMade, Resized, Retile;
      ghost var h := State();
      LiveIs(h, p);
      ReadTags(h, {}, p);
      var size := Size(mem[p + HEAD]);
      if size > nb + MIN_CHUNK_SIZE {
        var remainderSize := size - nb;
        var remainder := p + nb;
        CutBlock(h, p, nb, req);
        ghost var h1 := TwoBlocks(h, p, remainder, p + size, req, remainderSize - CHUNK_OVERHEAD);
        mem := SetInuse(mem, p, nb);
        mem := SetInuse(mem, remainder, remainderSize);
        cs := h1.cs;
        assert State() == h1;
        DisposeCut(p, remainder, remainderSize, h, h, nb, req);
        TailTrimmed(h0, h, State(), p, req, nb);
      } else {
        FitsKind(req, nb, size);
        Relabel(h0, h, p, req);
        cs := OneBlock(h, p, p + size, req).cs;
      }
    }

    // ---------- destroy ----------

    /**
     `destroy`, lines 1749-1763: offers every segment back to the system, once and in order. `gone` are the answers;
     what is still held afterwards are the segments that were declined. Each record is read before its segment goes.
     */
    method Destroy() returns (freed: int, ghost gone: seq<bool>)
      requires Valid()
      modifies `mem, `traffic
      ensures |gone| == |segs| && traffic == old(traffic) + OfferedAll(segs, gone)
      ensures freed == FreedTotal(segs, gone) && Remaining(old(State()), mem, gone)
    {
      hide Good, Linked, Remaining, Total, Paged, LegalGranularity, OfferedAll, FreedTotal, Shrunk, Outstanding, Peak;
      ghost var h := State();
      TopHasSegment(h);
      RemainingStart(h);
      freed, gone := 0, [];
      OfferedNone(segs);
      if segs == [] {
        NoSegmentWords(h);
      } else {
        GoodLinked(h, {});
        HeadRec(mem, segs);
      }
      var sp := SEG;
      while sp != 0
        invariant |gone| <= |segs| && Remaining(h, mem, gone) && freed == FreedTotal(segs, gone)
        invariant segs != [] ==> sp == RecAt(segs, |gone|)
        invariant segs == [] ==> mem == h.m && (sp == 0 || sp == SEG)
        invariant traffic == old(traffic) + OfferedAll(segs, gone)
        decreases |segs| - |gone|, sp
      {
        if segs != [] {
          RecordRemains(h, mem, gone);
          assert segs[|gone|].rec == sp;
        }
        var base := mem[sp];
        var size := mem[sp + SEG_SIZE];
        var canFree := base != 0 && mem[sp + SEG_FLAGS] % 2 == 0;
        sp := mem[sp + SEG_NEXT];
        if canFree {
          ghost var m1 := mem;
          FreedBelow(h, gone);
          var ok := SystemFree(base, size);
          RemainingMore(h, m1, mem, gone, ok);
          OfferedOneMore(old(traffic), segs, gone, ok);
          FreedMore(segs, gone, ok);
          gone := gone + [ok];
          if ok {
            freed := Plus(freed, size);
          }
        }
      }
      if segs != [] {
        assert |gone| == |segs| by { DoneAtEnd(h, |gone|); }
      }
    }

    // ---------- configuration ----------

    /** `set_granularity`, lines 179-185 */
    method SetGranularity(g: int) returns (ok: bool)
      requires Valid() && 0 <= g < WORD_LIMIT
      modifies `granularity
      ensures Valid() && (ok <==> LegalGranularity(g))
      ensures granularity == if ok then g else old(granularity)
    {
      hide Good, IsPowerOfTwo, Total, Paged;
      if g == 0 || !IsPowerOfTwo(g) || g < MIN_GRANULARITY {
        assert !LegalGranularity(g) by { NoPower(); }
        return false;
      }
      granularity := g;
      ok := true;
    }

    /** `set_max_release_check_rate`, lines 157-160 */
    method SetMaxReleaseCheckRate(rate: int)
      requires Valid() && 0 <= rate < WORD_LIMIT
      modifies `maxReleaseCheckRate, `releaseChecks
      ensures Valid() && maxReleaseCheckRate == rate
      ensures releaseChecks == if rate > 0 then rate else 0xFFFF_FFFF_FFFF_FFFF
    {
      hide Good, LegalGranularity, Total, Paged, Outstanding, Peak;
      maxReleaseCheckRate := rate;
      releaseChecks := ReleaseCheckTarget();
    }

    // ---------- sizes and contents ----------

    /** `validate_size`, lines 1252-1265: whether both assertions hold. The sums wrap for sizes no block can have. */
    method ValidateSize(ptr: int, size: int) returns (ok: bool)
      requires Good(State(), {}) && ptr - MEM_OFFSET in LiveOf(cs)
      ensures 0 <= size && size + MAX_OVERHEAD < WORD_LIMIT ==>
        (ok <==> size + CHUNK_OVERHEAD <= LiveOf(cs)[ptr - MEM_OFFSET].size <= size + MAX_OVERHEAD)
      ensures size == LiveOf(cs)[ptr - MEM_OFFSET].req ==> ok
    {
      hide Good, Size, Mmapped, LiveOf;
      ghost var h := State();
      var p := ptr - MEM_OFFSET;
      LiveIs(h, p);
      ReadTags(h, {}, p);
      ChunkEnds(h, {}, p);
      SlackOfLive(h, p);
      LiveNotMmapped(h, p);
      var psize := Size(mem[p + HEAD]);
      var minOverhead := if Mmapped(mem[p + HEAD]) then 2 * WORD_BYTES else CHUNK_OVERHEAD;
      ok := psize >= (size + minOverhead) % WORD_LIMIT;
      if !Mmapped(mem[p + HEAD]) {
        var maxOverhead := minOverhead + MIN_CHUNK_SIZE * 2 + WORD_BYTES - 1;
        ok := ok && psize <= (size + maxOverhead) % WORD_LIMIT;
      }
    }

    /** `calloc_must_clear`, lines 319-321: no block is directly mapped, so fresh memory always has to be cleared. */
    method CallocMustClear(ptr: int, allocatesZeros: bool) returns (must: bool)
      requires Good(State(), {}) && ptr - MEM_OFFSET in LiveOf(cs)
      ensures must
    {
      hide Good, Mmapped, LiveOf;
      LiveIs(State(), ptr - MEM_OFFSET);
      LiveNotMmapped(State(), ptr - MEM_OFFSET);
      must := !allocatesZeros || !Mmapped(mem[ptr - MEM_OFFSET + HEAD]);
    }

    /** `ptr::write_bytes(ptr, 0, size)` */
    method WriteZeros(ptr: int, n: int)
      requires n >= 0 && Held(mem, ptr, ptr + n)
      modifies `mem
      ensures Zeroed(old(mem), mem, ptr, n)
    {
      var i := 0;
      while i < n
        invariant 0 <= i <= n && Zeroed(old(mem), mem, ptr, i)
      {
        mem := mem[ptr + i := 0];
        i := i + 1;
      }
    }

    /** `trim`, lines 1745-1747 */
    method Trim(pad: int) returns (r: bool)
      requires Valid() && 0 <= pad && (releases ==> PassSafe(State()) || pad >= MaxRequest(granularity))
      modifies `mem, `treemap, `ix, `dv, `dvsize, `cs, `segs, `top, `topsize, `trimCheck, `footprint, `releaseChecks,
        `traffic
      ensures Valid() && LiveOf(cs) == old(LiveOf(cs)) && Untouched(old(mem), mem, LiveOf(cs))
      ensures footprint <= old(footprint) && (r <==> footprint < old(footprint))
      ensures (old(WholeRegions()) ==> WholeRegions()) && (TailLarge(old(segs)) ==> TailLarge(segs))
      ensures if pad >= MaxRequest(granularity) || old(segs) == []
        then traffic == old(traffic) && Ledger() == old(Ledger())
        else TrimRan(LiveOf(cs), old(Ledger()), Ledger(), pad, granularity, maxReleaseCheckRate,
                     Since(old(traffic), traffic))
    {
      hide Good, Untouched, LiveOf, LegalGranularity, Total, Paged, Outstanding, Peak, TrimRan, Since;
      r := SysTrim(pad);
    }

    // ---------- the heap walk ----------

    /** Walks the ring that starts at `b` along its `prev` links, looking for `x`. */
    method FindInRing(b: int, x: int, ghost r: seq<int>) returns (found: bool)
      requires r != [] && Ring(mem, r) && Distinct(r) && b == r[0]
      ensures found <==> x in r
    {
      hide Ring;
      var p := b;
      ghost var i := 0;
      while true
        invariant 0 <= i < |r| && p == r[i]
        invariant i != 0 ==> r[0] != x && forall j :: i < j < |r| ==> r[j] != x
        decreases if i == 0 then |r| else i
      {
        if p == x {
          return true;
        }
        RingNeighbours(mem, r, i);
        p := mem[p + PREV];
        i := Pred(|r|, i);
        DifferentAt(r, i, 0);
        if p == b {
          break;
        }
      }
      found := false;
    }

    /** The second half of `bin_find`: the chunk `x` is large. */
    method FindInTree(x: int, size: int) returns (found: bool)
      requires Indexed() && MIN_LARGE_SIZE <= size < WORD_LIMIT
      ensures found <==> x in ix.loc && SizeOf(ix, x) == size
    {
      hide IndexOk, Ring, Distinct, Bit, TreeIndex, Owns, Exp, Lo, Hi, Aligned, Shl, TopBit, Shape, OnPath, Size,
           LeftShiftForTreeIndex;
      assert 0 <= TreeIndex(size) < 32 by { TreeIndexInterval(size); }
      var tidx := TreeIndex(size);
      ShapeOf(mem, smallmap, treemap, ix);
      ReadTreeBin(mem, smallmap, treemap, ix, tidx);
      PathStarts(ix, size, x, tidx);
      found := false;
      if Bit(treemap, tidx) {
        var t := mem[TreeBinAt(tidx)];
        var sizebits := Shl(size, LeftShiftForTreeIndex(tidx));
        ghost var key := Root(tidx);
        ShiftedAtRoot(size, tidx);
        ReadNode(mem, smallmap, treemap, ix, key);
        while t != 0 && Size(mem[t + HEAD]) != size
          invariant t != 0 ==> NodeReads(mem, ix, key) && t == NodeAt(ix.trie, key)
          invariant t != 0 ==> Owns(key, size) && Aligned(sizebits, size, key) && OnPath(ix, size, x, key)
          invariant t == 0 ==> !(x in ix.loc && SizeOf(ix, x) == size)
          decreases t != 0, if t != 0 then Exp(key) else 0
        {
          RoomToDescend(key, size, ix.sizes[t]);
          TopBitPicksKid(sizebits, size, key);
          TowardsOwns(key, size);
          PathGoesOn(ix, size, x, key);
          ReadKid(mem, smallmap, treemap, ix, key, TopBit(sizebits));
          t := mem[t + (if TopBit(sizebits) then RIGHT else LEFT)];
          key := Towards(key, size);
          sizebits := Shl(sizebits, 1);
          if t != 0 {
            ReadNode(mem, smallmap, treemap, ix, key);
          }
        }
        if t != 0 {
          AtNode(mem, smallmap, treemap, ix, size, x, key);
          found := FindInRing(t, x, ix.trie[key]);
        }
      }
    }

    /** `bin_find`, lines 1695-1739: whether the chunk `x` is in the bin its size says. */
    method BinFind(x: int) returns (found: bool)
      requires Indexed() && HEAP_START <= x && x + HEAD in mem && 0 <= Size(mem[x + HEAD]) < WORD_LIMIT
      ensures found <==> x in ix.sizes
    {
      hide IndexOk, Ring, Distinct, Bit, Size;
      var size := Size(mem[x + HEAD]);
      if x in ix.sizes {
        HeadTells(mem, smallmap, treemap, ix, x);
      }
      if IsSmall(size) {
        var sidx := SmallIndex(size);
        InSmallBin(mem, smallmap, treemap, ix, size, x);
        found := false;
        if Bit(smallmap, sidx) {
          found := FindInRing(SmallBinAt(sidx), x, ix.small[sidx]);
        }
      } else {
        if x in ix.loc {
          LocatedIsLarge(mem, smallmap, treemap, ix, x);
        }
        found := FindInTree(x, size);
      }
    }
  }
}
