/** Circular doubly linked lists through the `prev` and `next` words of chunks. */
module Rings {
  import opened Memory

  function Succ(n: int, i: int): int { if i + 1 < n then i + 1 else 0 }
  function Pred(n: int, i: int): int { if i > 0 then i - 1 else n - 1 }

  /** Element `i` and its successor point at each other. */
  ghost predicate LinkAt(m: Mem, r: seq<int>, i: int)
    requires 0 <= i < |r|
  {
    var a, b := r[i], r[Succ(|r|, i)];
    && a + NEXT in m && b + PREV in m
    && m[a + NEXT] == b && m[b + PREV] == a
  }

  ghost predicate Ring(m: Mem, r: seq<int>) {
    && |r| > 0
    && forall i :: 0 <= i < |r| ==> LinkAt(m, r, i)
  }

  /** The members are different chunks. */
  ghost predicate Distinct(r: seq<int>) {
    && (forall i :: 0 <= i < |r| ==> r[i] % 16 == 0)
    && (forall i, j :: 0 <= i < j < |r| ==> r[i] != r[j])
  }

  function RemoveAt(r: seq<int>, j: int): seq<int>
    requires 0 <= j < |r|
  {
    r[..j] + r[j + 1..]
  }

  lemma RingNeighbours(m: Mem, r: seq<int>, j: int)
    requires Ring(m, r) && 0 <= j < |r|
    ensures r[j] + NEXT in m && m[r[j] + NEXT] == r[Succ(|r|, j)]
    ensures r[j] + PREV in m && m[r[j] + PREV] == r[Pred(|r|, j)]
  {
    assert LinkAt(m, r, j);
    assert LinkAt(m, r, Pred(|r|, j));
  }

  /** Writes that miss the link words of a ring leave it alone. */
  lemma RingFrame(m: Mem, m': Mem, r: seq<int>)
    requires Ring(m, r)
    requires forall i :: 0 <= i < |r| ==> SameRingWords(m, m', r[i])
    ensures Ring(m', r)
  {
    forall i | 0 <= i < |r|
      ensures LinkAt(m', r, i)
    {
      assert LinkAt(m, r, i);
      assert SameRingWords(m, m', r[i]) && SameRingWords(m, m', r[Succ(|r|, i)]);
    }
  }

  /** Linking `c` in before the first element appends it; a single element need not be linked to itself yet. */
  lemma RingAppend(m: Mem, m': Mem, r: seq<int>, c: int)
    requires |r| == 1 || Ring(m, r)
    requires r != [] && Distinct(r + [c])
    requires var h, f := r[0], r[|r| - 1];
      && h + PREV in m' && m'[h + PREV] == c && c + NEXT in m' && m'[c + NEXT] == h
      && f + NEXT in m' && m'[f + NEXT] == c && c + PREV in m' && m'[c + PREV] == f
    requires forall i :: 0 < i < |r| ==> SameAt(m, m', r[i] + PREV)
    requires forall i :: 0 <= i < |r| - 1 ==> SameAt(m, m', r[i] + NEXT)
    ensures Ring(m', r + [c])
  {
    var r' := r + [c];
    assert r'[|r|] == c;
    forall i | 0 <= i < |r'|
      ensures LinkAt(m', r', i)
    {
      if i < |r| - 1 {
        assert LinkAt(m, r, i);
        assert r'[i] == r[i] && r'[i + 1] == r[i + 1];
        assert SameAt(m, m', r[i] + NEXT) && SameAt(m, m', r[i + 1] + PREV);
      }
    }
  }

  /** Unlinking element `j` from its neighbours leaves a ring of the others. */
  lemma RingRemove(m: Mem, m': Mem, r: seq<int>, j: int)
    requires Ring(m, r) && |r| >= 2 && 0 <= j < |r|
    requires var f, b := r[Pred(|r|, j)], r[Succ(|r|, j)];
      f + NEXT in m' && b + PREV in m' && m'[f + NEXT] == b && m'[b + PREV] == f
    requires forall i :: 0 <= i < |r| && i != j && i != Pred(|r|, j) ==> SameAt(m, m', r[i] + NEXT)
    requires forall i :: 0 <= i < |r| && i != j && i != Succ(|r|, j) ==> SameAt(m, m', r[i] + PREV)
    ensures Ring(m', RemoveAt(r, j))
  {
    var n := |r|;
    var r' := RemoveAt(r, j);
    forall i | 0 <= i < |r'|
      ensures LinkAt(m', r', i)
    {
      // the element of r behind position i of r', and the one behind its successor
      var k := if i < j then i else i + 1;
      var i' := Succ(n - 1, i);
      var k' := if i' < j then i' else i' + 1;
      assert r'[i] == r[k] && r'[i'] == r[k'];
      if k == Pred(n, j) {
        assert k' == Succ(n, j);
      } else {
        assert k' == Succ(n, k);
        assert LinkAt(m, r, k);
        assert SameAt(m, m', r[k] + NEXT) && SameAt(m, m', r[k'] + PREV);
      }
    }
  }

  lemma DifferentAt(r: seq<int>, i: int, j: int)
    requires Distinct(r) && 0 <= i < |r| && 0 <= j < |r|
    ensures r[i] == r[j] <==> i == j
    ensures r[i] % 16 == 0
  {
  }

  // ---------- the two patterns of writes ----------

  /** Link `c` in between the last element and the first. */
  function LinkLast(m: Mem, r: seq<int>, c: int): Mem {
    if r == [] then m
    else m[r[0] + PREV := c][r[|r| - 1] + NEXT := c][c + PREV := r[|r| - 1]][c + NEXT := r[0]]
  }

  /** Point the neighbours of element `j` at each other. */
  function UnlinkAt(m: Mem, r: seq<int>, j: int): Mem
    requires 0 <= j < |r|
  {
    var f, b := r[Pred(|r|, j)], r[Succ(|r|, j)];
    m[f + NEXT := b][b + PREV := f]
  }

  lemma LinkLastRing(m: Mem, r: seq<int>, c: int)
    requires |r| == 1 || Ring(m, r)
    requires r != [] && Distinct(r + [c])
    ensures Ring(LinkLast(m, r, c), r + [c])
  {
    var m' := LinkLast(m, r, c);
    var r' := r + [c];
    var n := |r|;
    forall i | 0 < i < n
      ensures SameAt(m, m', r[i] + PREV)
    {
      RingNeighbours(m, r, i);
      DifferentAt(r', i, n);
      DifferentAt(r', i, 0);
      DifferentAt(r', i, n - 1);
    }
    forall i | 0 <= i < n - 1
      ensures SameAt(m, m', r[i] + NEXT)
    {
      RingNeighbours(m, r, i);
      DifferentAt(r', i, n);
      DifferentAt(r', i, 0);
      DifferentAt(r', i, n - 1);
    }
    DifferentAt(r', 0, n);
    DifferentAt(r', n - 1, n);
    assert r'[|r|] == c;
    RingAppend(m, m', r, c);
  }

  lemma UnlinkAtRing(m: Mem, r: seq<int>, j: int)
    requires Ring(m, r) && Distinct(r) && |r| >= 2 && 0 <= j < |r|
    ensures Ring(UnlinkAt(m, r, j), RemoveAt(r, j))
  {
    var m' := UnlinkAt(m, r, j);
    var n := |r|;
    forall i | 0 <= i < n && i != j && i != Pred(n, j)
      ensures SameAt(m, m', r[i] + NEXT)
    {
      RingNeighbours(m, r, i);
      DifferentAt(r, i, Pred(n, j));
      DifferentAt(r, i, Succ(n, j));
    }
    forall i | 0 <= i < n && i != j && i != Succ(n, j)
      ensures SameAt(m, m', r[i] + PREV)
    {
      RingNeighbours(m, r, i);
      DifferentAt(r, i, Pred(n, j));
      DifferentAt(r, i, Succ(n, j));
    }
    RingRemove(m, m', r, j);
  }

  lemma DistinctRemove(r: seq<int>, j: int)
    requires Distinct(r) && 0 <= j < |r|
    ensures Distinct(RemoveAt(r, j))
    ensures r[j] !in RemoveAt(r, j)
    ensures forall x :: x in r && x != r[j] ==> x in RemoveAt(r, j)
    ensures forall x :: x in RemoveAt(r, j) ==> x in r
  {
    var r' := RemoveAt(r, j);
    forall x | x in r && x != r[j]
      ensures x in r'
    {
      var i :| 0 <= i < |r| && r[i] == x;
      assert r'[if i < j then i else i - 1] == x;
    }
  }
}
