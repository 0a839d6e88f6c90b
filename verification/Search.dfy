/**
 Which chunk the two loops of `tmalloc_large` choose, as a function of the index. The port compares sizes with guarded
 subtractions; the C original compares differences that may wrap around zero. Both are proved against this function.
 */
module Search {
  import opened Words
  import opened Bits
  import opened SizeClasses
  import opened FreeIndex
  import opened BestFit

  /** A candidate, null for none, and how much larger than the request it is. */
  datatype Pick = Pick(v: int, rsize: int)

  /** Where the first loop stops: the node the second loop starts from, its position, and the candidate so far. */
  datatype Descent = Descent(next: int, top: Key, pick: Pick)

  /** The candidate once the node at `k` has been looked at. */
  function Look(ix: Index, size: int, k: Key, p: Pick): Pick {
    if Closer(SizeAt(ix, k), size, p.rsize) then Pick(NodeAt(ix.trie, k), SizeAt(ix, k) - size) else p
  }

  /** The first loop, from position `k` with the subtree at `rk`, whose root is `rst`, set aside. */
  function Descend(ix: Index, size: int, k: Key, p: Pick, rst: int, rk: Key): Descent
    decreases Exp(k)
  {
    if k !in ix.trie then Descent(rst, rk, p) else
    var q := Look(ix, size, k, p);
    if q.rsize == 0 then Descent(NodeAt(ix.trie, k), k, q)
    else if Exp(k) < 1 then Descent(rst, rk, q)
    else
      var below := Towards(k, size);
      if !below.right && Kid(k, true) in ix.trie
      then Descend(ix, size, below, q, NodeAt(ix.trie, Kid(k, true)), Kid(k, true))
      else Descend(ix, size, below, q, rst, rk)
  }

  /** `leftmost_child` */
  function LeftmostKid(ix: Index, k: Key): Key { Kid(k, Kid(k, false) !in ix.trie) }

  /** The second loop, down the leftmost path from `k`. */
  function Leftmost(ix: Index, size: int, k: Key, p: Pick): Pick
    decreases Exp(k)
  {
    if k !in ix.trie then p
    else if Exp(k) < 0 then Look(ix, size, k, p)
    else Leftmost(ix, size, LeftmostKid(ix, k), Look(ix, size, k, p))
  }

  /** Both loops, with the step to the next marked bin between them. */
  function Chosen(ix: Index, treemap: bv32, size: int): Pick
    requires 0 <= size && 0 <= TreeIndex(size) < 32
  {
    var idx := TreeIndex(size);
    var d := Descend(ix, size, Root(idx), Pick(0, WORD_LIMIT - size), 0, Root(idx));
    SecondLoop(ix, treemap, size, idx, d)
  }

  function SecondLoop(ix: Index, treemap: bv32, size: int, idx: int, d: Descent): Pick
    requires 0 <= idx < 32
  {
    if d.next != 0 then Leftmost(ix, size, d.top, d.pick)
    else if d.pick.v == 0 && And(LeftBits(One(idx)), treemap) != 0
    then Leftmost(ix, size, Root(BinAbove(treemap, idx)), d.pick)
    else d.pick
  }

  /** The chosen chunk is taken, unless there is none or the designated victim fits at least as tightly. */
  predicate Taken(p: Pick, size: int, dvsize: int) {
    p.v != 0 && (dvsize < size || p.rsize < dvsize - size)
  }

  // ---------- one step of each loop ----------

  lemma DescendStep(ix: Index, size: int, k: Key, p: Pick, rst: int, rk: Key)
    ensures var d, q := Descend(ix, size, k, p, rst, rk), Look(ix, size, k, p);
      && (k !in ix.trie ==> d == Descent(rst, rk, p))
      && (k in ix.trie && q.rsize == 0 ==> d == Descent(NodeAt(ix.trie, k), k, q))
      && (k in ix.trie && q.rsize != 0 && Exp(k) >= 1 ==>
            var below := Towards(k, size);
            var aside := !below.right && Kid(k, true) in ix.trie;
            d == Descend(ix, size, below, q, if aside then NodeAt(ix.trie, Kid(k, true)) else rst,
                         if aside then Kid(k, true) else rk))
  {
    hide Look, Towards, Exp;
  }

  lemma LeftmostStep(ix: Index, size: int, k: Key, p: Pick)
    ensures k !in ix.trie ==> Leftmost(ix, size, k, p) == p
    ensures k in ix.trie && Exp(k) >= 0 ==>
      Leftmost(ix, size, k, p) == Leftmost(ix, size, LeftmostKid(ix, k), Look(ix, size, k, p))
  {
    hide Look, Exp, LeftmostKid;
  }

  // ---------- comparing differences that wrap around ----------

  /**
   A chunk that is too small leaves a difference so large that no candidate's remainder exceeds it: the wrapped
   comparison is the guarded one.
   */
  lemma WrappedIsCloser(csize: int, size: int, rsize: int)
    requires 0 <= csize < WORD_LIMIT && 0 < size < WORD_LIMIT && 0 <= rsize <= Minus(0, size)
    ensures Minus(csize, size) < rsize <==> Closer(csize, size, rsize)
    ensures Closer(csize, size, rsize) ==> Minus(csize, size) == csize - size
    ensures Minus(0, size) == WORD_LIMIT - size
  {
    hide Minus;
    MinusWraps(csize, size);
    MinusWraps(0, size);
  }

  /** A designated victim that is too small never keeps the chosen chunk from being taken. */
  lemma WrappedIsTaken(p: Pick, size: int, dvsize: int, csize: int)
    requires 0 < size < WORD_LIMIT && 0 <= dvsize < WORD_LIMIT
    requires p.v != 0 ==> 0 <= p.rsize == csize - size && csize < WORD_LIMIT
    ensures p.v != 0 && p.rsize < Minus(dvsize, size) <==> Taken(p, size, dvsize)
  {
    hide Minus;
    MinusWraps(dvsize, size);
  }
}
