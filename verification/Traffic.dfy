/**
 What goes back and forth between the allocator and the system: every call to the system allocator with its answer, in
 order, and what the log of a release pass, a trim or the end of the allocator has to look like.
 */
module Traffic {
  import opened Words
  import opened SizeClasses
  import opened Tiling
  import opened HeapState
  import opened Segments

  /**
   A call and its answer: a region was asked for, with base and size zero if the system refused; a whole segment was
   offered back; the end of one was; and the system was asked whether it takes parts back.
   */
  datatype SystemCall =
    | AskedFor(size: int, base: int, tsize: int)
    | Offered(base: int, size: int, taken: bool)
    | OfferedPart(base: int, oldsize: int, newsize: int, taken: bool)
    | MayRelease(answer: bool)

  /** By how much a call changes what the system has outstanding. */
  function Change(c: SystemCall): int {
    match c
    case AskedFor(_, _, tsize) => tsize
    case Offered(_, size, taken) => if taken then -size else 0
    case OfferedPart(_, oldsize, newsize, taken) => if taken then newsize - oldsize else 0
    case MayRelease(_) => 0
  }

  /** What the system has supplied and not taken back. */
  function Outstanding(log: seq<SystemCall>): int {
    if log == [] then 0 else Outstanding(log[..|log| - 1]) + Change(log[|log| - 1])
  }

  /** The most that was outstanding at any time. */
  function Peak(log: seq<SystemCall>): int {
    if log == [] then 0
    else if Peak(log[..|log| - 1]) < Outstanding(log) then Outstanding(log)
    else Peak(log[..|log| - 1])
  }

  lemma OneMoreCall(log: seq<SystemCall>, c: SystemCall)
    ensures Outstanding(log + [c]) == Outstanding(log) + Change(c)
    ensures Peak(log + [c]) == if Peak(log) < Outstanding(log + [c]) then Outstanding(log + [c]) else Peak(log)
    ensures Outstanding(log) <= Peak(log)
  {
    assert (log + [c])[..|log|] == log;
  }

  lemma NoTraffic()
    ensures Outstanding([]) == 0 == Peak([])
  {
  }

  lemma BelowPeak(log: seq<SystemCall>)
    ensures Outstanding(log) <= Peak(log)
  {
  }

  /** The highest level is reached at some time and never exceeded. */
  lemma {:induction false} PeakIsHighest(log: seq<SystemCall>)
    ensures forall n :: 0 <= n <= |log| ==> Outstanding(log[..n]) <= Peak(log)
    ensures exists n :: 0 <= n <= |log| && Outstanding(log[..n]) == Peak(log)
  {
    if log == [] {
      assert Outstanding(log[..0]) == Peak(log);
    } else {
      var before := log[..|log| - 1];
      PeakIsHighest(before);
      forall n | 0 <= n <= |log|
        ensures Outstanding(log[..n]) <= Peak(log)
      {
        if n < |log| {
          assert log[..n] == before[..n];
        } else {
          assert log[..n] == log;
        }
      }
      var n :| 0 <= n <= |before| && Outstanding(before[..n]) == Peak(before);
      assert log[..n] == before[..n] && log[..|log|] == log;
    }
  }

  /** The calls since the log was `before`. */
  function Since(before: seq<SystemCall>, log: seq<SystemCall>): seq<SystemCall> {
    if before <= log then log[|before|..] else []
  }

  lemma SinceNothing(log: seq<SystemCall>)
    ensures Since(log, log) == []
    ensures forall base :: !WasOffered([], base)
  {
  }

  lemma SinceAppended(before: seq<SystemCall>, more: seq<SystemCall>)
    ensures Since(before, before + more) == more
  {
  }

  /** The segment was offered back, whether it was taken or not. */
  predicate WasOffered(log: seq<SystemCall>, base: int) {
    exists i :: 0 <= i < |log| && log[i].Offered? && log[i].base == base
  }

  // ---------- asking for memory ----------

  /** The least multiple of the granularity that is not below `least`. */
  predicate RoundedUp(size: int, unit: int, least: int) {
    unit > 0 && size % unit == 0 && least <= size < least + unit
  }

  lemma RoundsUp(least: int, unit: int)
    requires unit > 0
    ensures RoundedUp(AlignUp(least, unit), unit, least)
  {
    var a := least + (unit - 1);
    assert a - a % unit == a / unit * unit;
    WholeMultiple(a / unit, unit);
  }

  /** The system was asked once, for the padded request and the room `sys_alloc` needs around it. */
  predicate AskedOnce(log: seq<SystemCall>, unit: int, nb: int, ok: bool) {
    && |log| == 1 && log[0].AskedFor? && RoundedUp(log[0].size, unit, nb + TOP_FOOT_SIZE + MALLOC_ALIGNMENT)
    && (ok <==> log[0].base != 0)
  }

  /** The system was asked whether the last `cut` bytes of a segment may go, offered them if so, and took `taken`. */
  predicate EndOffered(s: Seg, cut: int, taken: int, log: seq<SystemCall>) {
    || (taken == 0 && log == [MayRelease(false)])
    || (taken == 0 && log == [MayRelease(true), OfferedPart(s.base, s.size, s.size - cut, false)])
    || (taken == cut && log == [MayRelease(true), OfferedPart(s.base, s.size, s.size - cut, true)])
  }

  /** Each segment was offered as a whole, in order, with these answers. */
  function OfferedAll(segs: seq<Seg>, taken: seq<bool>): (log: seq<SystemCall>)
    requires |taken| <= |segs|
  {
    seq(|taken|, i requires 0 <= i < |taken| => Offered(segs[i].base, segs[i].size, taken[i]))
  }

  lemma OfferedNone(segs: seq<Seg>)
    ensures OfferedAll(segs, []) == []
  {
  }

  lemma OfferedOneMore(before: seq<SystemCall>, segs: seq<Seg>, taken: seq<bool>, more: bool)
    requires |taken| < |segs|
    ensures before + OfferedAll(segs, taken + [more]) ==
      before + OfferedAll(segs, taken) + [Offered(segs[|taken|].base, segs[|taken|].size, more)]
  {
    var s := segs[|taken|];
    assert OfferedAll(segs, taken + [more]) == OfferedAll(segs, taken) + [Offered(s.base, s.size, more)];
  }

  // ---------- the release pass ----------

  /** A segment that holds no block, and whose record did not displace top when the segment was closed. */
  ghost predicate Vacated(live: map<int, Block>, s: Seg) {
    && s.size > TOP_FOOT_SIZE && s.rec == End(s) - TOP_FOOT_SIZE + MEM_OFFSET
    && forall a :: a in live ==> !InSeg(s, a)
  }

  /** How many calls a pass makes for a segment when the log goes on with `log`. */
  ghost function CallsFor(live: map<int, Block>, s: Seg, log: seq<SystemCall>): nat {
    if log != [] && log[0] == MayRelease(true) && Vacated(live, s) then 2 else 1
  }

  /**
   The log of a pass over `segs`: for each segment the question whether it may be released and, if so and if it is
   vacated, the offer of the whole segment.
   */
  ghost predicate PassLog(live: map<int, Block>, segs: seq<Seg>, log: seq<SystemCall>)
    decreases |segs|
  {
    if segs == [] then log == [] else
      && log != [] && log[0].MayRelease?
      && var n := CallsFor(live, segs[0], log);
      && n <= |log|
      && (n == 2 ==> log[1].Offered? && log[1].base == segs[0].base && log[1].size == segs[0].size)
      && PassLog(live, segs[1..], log[n..])
  }

  /** The segments that are left: all but those that were offered and taken. */
  ghost function Left(live: map<int, Block>, segs: seq<Seg>, log: seq<SystemCall>): seq<Seg>
    decreases |segs|
  {
    if segs == [] || |log| < CallsFor(live, segs[0], log) then segs else
    var n := CallsFor(live, segs[0], log);
    var rest := Left(live, segs[1..], log[n..]);
    if n == 2 && log[1].Offered? && log[1].taken then rest else [segs[0]] + rest
  }

  lemma PassEmpty(live: map<int, Block>)
    ensures PassLog(live, [], []) && Left(live, [], []) == []
  {
  }

  /** A pass starts with the part for the first segment. */
  lemma PassFirst(live: map<int, Block>, segs: seq<Seg>, log: seq<SystemCall>) returns (n: nat)
    requires PassLog(live, segs, log) && segs != []
    ensures n <= |log| && PassLog(live, [segs[0]], log[..n]) && PassLog(live, segs[1..], log[n..])
    ensures Left(live, segs, log) == Left(live, [segs[0]], log[..n]) + Left(live, segs[1..], log[n..])
  {
    hide Vacated;
    n := CallsFor(live, segs[0], log);
    assert CallsFor(live, segs[0], log[..n]) == n && log[..n][n..] == [];
  }

  lemma PassPrepend(live: map<int, Block>, s: Seg, first: seq<SystemCall>, segs: seq<Seg>, log: seq<SystemCall>)
    requires PassLog(live, [s], first) && PassLog(live, segs, log)
    ensures PassLog(live, [s] + segs, first + log)
    ensures Left(live, [s] + segs, first + log) == Left(live, [s], first) + Left(live, segs, log)
  {
    hide Vacated;
    var n := CallsFor(live, s, first);
    assert ([s] + segs)[1..] == segs && [s][1..] == [] && first[n..] == [];
    assert CallsFor(live, s, first + log) == n && (first + log)[n..] == log;
  }

  lemma Regroup<T>(a: seq<T>, b: seq<T>, c: seq<T>)
    ensures a + (b + c) == (a + b) + c
  {
  }

  /** A pass over one more segment. */
  lemma {:induction false} PassOneMore(live: map<int, Block>, segs: seq<Seg>, log: seq<SystemCall>, s: Seg,
                                       more: seq<SystemCall>)
    requires PassLog(live, segs, log) && PassLog(live, [s], more)
    ensures PassLog(live, segs + [s], log + more)
    ensures Left(live, segs + [s], log + more) == Left(live, segs, log) + Left(live, [s], more)
    decreases |segs|
  {
    if segs == [] {
      assert segs + [s] == [s] && log + more == more;
    } else {
      var n := PassFirst(live, segs, log);
      hide PassLog, Left;
      PassOneMore(live, segs[1..], log[n..], s, more);
      PassPrepend(live, segs[0], log[..n], segs[1..] + [s], log[n..] + more);
      Regroup([segs[0]], segs[1..], [s]);
      Regroup(log[..n], log[n..], more);
      Regroup(Left(live, [segs[0]], log[..n]), Left(live, segs[1..], log[n..]), Left(live, [s], more));
      assert [segs[0]] + segs[1..] == segs && log[..n] + log[n..] == log;
    }
  }

  /** The part of a pass for one segment. */
  lemma PassOne(live: map<int, Block>, s: Seg, asked: bool, offered: bool, taken: bool)
    requires offered <==> asked && Vacated(live, s)
    ensures var log := [MayRelease(asked)] + if offered then [Offered(s.base, s.size, taken)] else [];
      && PassLog(live, [s], log) && Left(live, [s], log) == (if offered && taken then [] else [s])
      && (WasOffered(log, s.base) <==> offered) && forall b :: WasOffered(log, b) ==> b == s.base
  {
    hide Vacated;
    var log := [MayRelease(asked)] + if offered then [Offered(s.base, s.size, taken)] else [];
    if offered {
      assert log[2..] == [] && log[1].Offered?;
    } else {
      assert log[1..] == [];
    }
  }

  /** The list after a pass has looked at one more segment. */
  lemma PassAdvances(live: map<int, Block>, all: seq<Seg>, j: int, log: seq<SystemCall>, more: seq<SystemCall>,
                     segs: seq<Seg>, freed: bool)
    requires 1 <= j < |all| && PassLog(live, all[1..j], log) && PassLog(live, [all[j]], more)
    requires segs == [all[0]] + Left(live, all[1..j], log) + all[j..]
    requires Left(live, [all[j]], more) == if freed then [] else [all[j]]
    ensures PassLog(live, all[1..j + 1], log + more)
    ensures var k := 1 + |Left(live, all[1..j], log)|;
      && Without(segs, k, freed) == [all[0]] + Left(live, all[1..j + 1], log + more) + all[j + 1..]
      && |Left(live, all[1..j + 1], log + more)| == k - 1 + if freed then 0 else 1
  {
    hide PassLog, Left;
    PassOneMore(live, all[1..j], log, all[j], more);
    assert all[1..j] + [all[j]] == all[1..j + 1];
  }

  /** The pass has looked at the segments before `j`, and what is left of them are the first `k` segments now. */
  ghost predicate PassHalfway(live: map<int, Block>, all: seq<Seg>, segs: seq<Seg>, j: int, k: int,
                              log: seq<SystemCall>) {
    && 1 <= j <= |all| && PassLog(live, all[1..j], log)
    && segs == [all[0]] + Left(live, all[1..j], log) + all[j..] && k == 1 + |Left(live, all[1..j], log)|
  }

  lemma PassStarts(live: map<int, Block>, all: seq<Seg>, dv: int)
    requires all != []
    ensures PassHalfway(live, all, all, 1, 1, []) && !WasOffered([], dv)
  {
    assert all[1..1] == [];
  }

  lemma PassGoesOn(live: map<int, Block>, all: seq<Seg>, segs: seq<Seg>, j: int, k: int, log: seq<SystemCall>,
                   more: seq<SystemCall>, freed: bool, dv: int, dv1: int)
    requires PassHalfway(live, all, segs, j, k, log) && k < |segs| && PassLog(live, [segs[k]], more)
    requires Left(live, [segs[k]], more) == if freed then [] else [segs[k]]
    requires dv1 == if WasOffered(log, dv) then 0 else dv
    ensures j < |all| && PassHalfway(live, all, Without(segs, k, freed), j + 1, if freed then k else k + 1, log + more)
    ensures (if WasOffered(more, dv1) then 0 else dv1) == if WasOffered(log + more, dv) then 0 else dv
  {
    hide PassLog, Left, WasOffered;
    assert segs[k] == all[j];
    PassAdvances(live, all, j, log, more, segs, freed);
    OfferedIn(log, more, dv);
  }

  lemma PassEnds(live: map<int, Block>, all: seq<Seg>, segs: seq<Seg>, j: int, k: int, log: seq<SystemCall>)
    requires PassHalfway(live, all, segs, j, k, log) && k == |segs|
    ensures j == |all| && PassLog(live, all[1..], log) && segs == [all[0]] + Left(live, all[1..], log)
  {
    hide PassLog, Left;
    assert all[1..j] == all[1..];
  }

  lemma OfferedIn(a: seq<SystemCall>, b: seq<SystemCall>, base: int)
    ensures WasOffered(a + b, base) <==> WasOffered(a, base) || WasOffered(b, base)
  {
    if WasOffered(a, base) {
      var i :| 0 <= i < |a| && a[i].Offered? && a[i].base == base;
      assert (a + b)[i] == a[i];
    }
    if WasOffered(b, base) {
      var i :| 0 <= i < |b| && b[i].Offered? && b[i].base == base;
      assert (a + b)[|a| + i] == b[i];
    }
  }

  /**
   Exactly the vacated segments that the system agreed to release and took are gone. Segments have different bases, as
   those of a heap have.
   */
  lemma {:induction false} LeftIs(live: map<int, Block>, segs: seq<Seg>, log: seq<SystemCall>, s: Seg)
    requires PassLog(live, segs, log) && s in segs
    requires forall i, j :: 0 <= i < j < |segs| ==> segs[i].base != segs[j].base
    ensures s !in Left(live, segs, log) <==> Offered(s.base, s.size, true) in log
    ensures WasOffered(log, s.base) ==> Vacated(live, s)
    decreases |segs|
  {
    hide Vacated;
    var n := CallsFor(live, segs[0], log);
    assert log == log[..n] + log[n..];
    OfferedIn(log[..n], log[n..], s.base);
    LeftWithin(live, segs[1..], log[n..]);
    if s == segs[0] {
      assert s !in segs[1..];
    } else {
      LeftIs(live, segs[1..], log[n..], s);
    }
  }

  /** Only segments of the pass are left, and only they are offered. */
  lemma {:induction false} LeftWithin(live: map<int, Block>, segs: seq<Seg>, log: seq<SystemCall>)
    requires PassLog(live, segs, log)
    ensures forall s :: s in Left(live, segs, log) ==> s in segs
    ensures forall i :: 0 <= i < |log| && log[i].Offered? ==> exists s :: s in segs && log[i].base == s.base
    decreases |segs|
  {
    hide Vacated;
    if segs != [] {
      var n := CallsFor(live, segs[0], log);
      LeftWithin(live, segs[1..], log[n..]);
      forall i | 0 <= i < |log| && log[i].Offered?
        ensures exists s :: s in segs && log[i].base == s.base
      {
        if i < n {
          assert segs[0] in segs;
        } else {
          assert log[i] == log[n..][i - n];
        }
      }
    }
  }

  /** When the system agrees to everything, no vacated segment is left. */
  lemma {:induction false} WillingSystem(live: map<int, Block>, segs: seq<Seg>, log: seq<SystemCall>)
    requires PassLog(live, segs, log)
    requires MayRelease(false) !in log && forall i :: 0 <= i < |log| && log[i].Offered? ==> log[i].taken
    ensures forall s :: s in Left(live, segs, log) <==> s in segs && !Vacated(live, s)
    decreases |segs|
  {
    hide Vacated;
    if segs != [] {
      var n := CallsFor(live, segs[0], log);
      assert log[0] in log;
      forall i | 0 <= i < |log[n..]|
        ensures log[n..][i] == log[n + i] && log[n..][i] in log
      {
      }
      WillingSystem(live, segs[1..], log[n..]);
    }
  }
}
