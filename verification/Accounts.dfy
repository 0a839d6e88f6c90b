/**
 What the operations do to the segments and to the counters that decide when memory goes back to the system, and which
 calls to the system they make.
 */
module Accounts {
  import opened Words
  import opened Memory
  import opened SizeClasses
  import opened Tiling
  import opened HeapState
  import opened HeapOps
  import opened Freeing
  import opened Segments
  import opened NewSegments
  import opened Limits
  import opened Policy
  import opened Traffic

  /**
   The segments; the size of top; what the segments add up to; the size of top from which on `free` trims; how many more
   large chunks are freed before the next release pass; and whether segments are made of whole regions of `MIN_REGION`
   bytes and stay so.
   */
  datatype Books = Books(segs: seq<Seg>, topsize: int, footprint: int, trimCheck: int, countdown: int, paged: bool)

  /** After an allocation, which leaves segments alone if it was served from memory in hand. */
  ghost predicate Extended(b: Books, b': Books, inHand: bool) {
    && (AllLarge(b.segs) ==> TailLarge(b'.segs)) && (b.paged ==> b'.paged) && b'.countdown == b.countdown
    && (inHand ==> b'.segs == b.segs && b'.footprint == b.footprint && b'.trimCheck == b.trimCheck)
  }

  /** After a block has been freed; `quiet` if the release pass was out of reach. */
  ghost predicate Reduced(b: Books, b': Books, quiet: bool) {
    && (b.paged ==> b'.paged)
    && (quiet ==>
          && b'.segs == b.segs && b'.footprint == b.footprint && b'.trimCheck == b.trimCheck
          && b'.countdown >= b.countdown - 1)
  }

  /** After a block has been moved; `calm` if no call can reach the release pass before the countdown ends. */
  ghost predicate Shifted(b: Books, b': Books, calm: bool) {
    (b.paged ==> b'.paged) && (calm ==> b'.countdown >= b.countdown - 1)
  }

  // ---------- memory from the system ----------

  /** The region ends where segment `i` starts. */
  predicate InFront(segs: seq<Seg>, i: int, base: int, tsize: int) {
    0 <= i < |segs| && segs[i].base == base + tsize
  }

  /**
   How a region joins the heap, and where the request is then served: the first region is the first segment; one behind
   the head segment makes that longer and its top larger; one in front of a segment serves the request at its start
   and belongs to that segment; any other is a new head segment.
   */
  ghost predicate Joined(h: Heap, h': Heap, base: int, tsize: int, p: int) {
    if h.segs == [] then h'.segs == [Seg(base, tsize, SEG)] && p == base
    else if base == End(h.segs[0]) then
      h'.segs == h.segs[0 := h.segs[0].(size := h.segs[0].size + tsize)] && p == h.top
    else
      && p == base
      && (forall i :: InFront(h.segs, i, base, tsize) ==>
            h'.segs == h.segs[i := Seg(base, h.segs[i].size + tsize, h.segs[i].rec)])
      && ((forall i :: !InFront(h.segs, i, base, tsize)) ==> h'.segs == SegsWith(h, base, tsize))
  }

  ghost predicate JoinsFront(segs: seq<Seg>, base: int, tsize: int) {
    segs != [] && base != End(segs[0]) && exists i :: InFront(segs, i, base, tsize)
  }

  /** The victim is left alone unless it is the first chunk of a segment that the rest of a region now precedes. */
  ghost predicate VictimJoined(h: Heap, h': Heap, base: int, tsize: int, nb: int) {
    if JoinsFront(h.segs, base, tsize) && h.dv == base + tsize then
      h'.dv == base + nb && h'.dvsize == h.dvsize + tsize - nb
    else h'.dv == h.dv && h'.dvsize == h.dvsize
  }

  /** No two segments start at the same address. */
  lemma BasesDiffer(h: Heap)
    requires Good(h, {})
    ensures forall i, j :: 0 <= i < j < |h.segs| ==> h.segs[i].base != h.segs[j].base
  {
    hide Good;
    forall i, j | 0 <= i < j < |h.segs|
      ensures h.segs[i].base != h.segs[j].base
    {
      HeldSeg(h, {}, i);
      HeldSeg(h, {}, j);
      SegsApartOf(h, {}, i, j);
    }
  }

  lemma JoinedBehind(h: Heap, h': Heap, base: int, tsize: int, nb: int)
    requires h.segs != [] && base == End(h.segs[0])
    requires h'.segs == h.segs[0 := h.segs[0].(size := h.segs[0].size + tsize)]
    requires h'.dv == h.dv && h'.dvsize == h.dvsize
    ensures Joined(h, h', base, tsize, h.top) && VictimJoined(h, h', base, tsize, nb)
    ensures !JoinsFront(h.segs, base, tsize)
  {
  }

  lemma JoinedInFront(h: Heap, h': Heap, base: int, tsize: int, nb: int, i: int)
    requires h.segs != [] && base != End(h.segs[0]) && InFront(h.segs, i, base, tsize)
    requires forall i, j :: 0 <= i < j < |h.segs| ==> h.segs[i].base != h.segs[j].base
    requires h'.segs == h.segs[i := Seg(base, h.segs[i].size + tsize, h.segs[i].rec)]
    requires if base + tsize == h.dv then h'.dv == base + nb && h'.dvsize == h.dvsize + tsize - nb
      else h'.dv == h.dv && h'.dvsize == h.dvsize
    ensures Joined(h, h', base, tsize, base) && VictimJoined(h, h', base, tsize, nb)
    ensures JoinsFront(h.segs, base, tsize)
  {
  }

  lemma JoinedAlone(h: Heap, h': Heap, base: int, tsize: int, nb: int)
    requires h.segs != [] && base != End(h.segs[0]) && forall i :: !InFront(h.segs, i, base, tsize)
    requires h'.segs == SegsWith(h, base, tsize) && h'.dv == h.dv && h'.dvsize == h.dvsize
    ensures Joined(h, h', base, tsize, base) && VictimJoined(h, h', base, tsize, nb)
    ensures !JoinsFront(h.segs, base, tsize)
  {
  }

  /**
   The system was asked once, and it refused, or the region has joined the heap. The first region starts the countdown
   to the release pass.
   */
  ghost predicate Requested(h: Heap, b: Books, h': Heap, b': Books, log: seq<SystemCall>, unit: int, rate: int, nb: int,
                            r: int) {
    && AskedOnce(log, unit, nb, r != 0)
    && (r == 0 ==> h' == h && b' == b)
    && (r != 0 ==>
          && Joined(h, h', log[0].base, log[0].tsize, r - MEM_OFFSET)
          && VictimJoined(h, h', log[0].base, log[0].tsize, nb)
          && b'.footprint == b.footprint + log[0].tsize
          && b'.trimCheck == (if JoinsFront(h.segs, log[0].base, log[0].tsize) then b.trimCheck
                              else DEFAULT_TRIM_THRESHOLD)
          && b'.countdown == if h.segs != [] then b.countdown else if rate == 0 then 0xFFFF_FFFF_FFFF_FFFF else rate)
  }

  /** The system is asked exactly if the request is not too large and cannot be served from memory in hand. */
  ghost predicate SystemUsed(h: Heap, before: seq<SystemCall>, log: seq<SystemCall>, unit: int, req: int, r: int)
    requires 0 < unit < WORD_LIMIT
  {
    if req >= MaxRequest(unit) || InHand(h, Request2Size(req)) then log == before
    else AskedOnce(Since(before, log), unit, Request2Size(req), r != 0)
  }

  lemma UsedAlike(h: Heap, before: seq<SystemCall>, log: seq<SystemCall>, unit: int, req: int, r: int, r': int)
    requires 0 < unit < WORD_LIMIT && SystemUsed(h, before, log, unit, req, r) && (r == 0 <==> r' == 0)
    ensures SystemUsed(h, before, log, unit, req, r')
  {
  }

  lemma NotAsked(h: Heap, log: seq<SystemCall>, unit: int, req: int)
    requires 0 < unit < WORD_LIMIT
    ensures req >= MaxRequest(unit) ==> SystemUsed(h, log, log, unit, req, 0)
  {
  }

  // ---------- memory back to the system ----------

  function Larger(a: int, b: int): int { if a < b then b else a }

  /** The release pass has run over all segments but the head, and the countdown starts again. */
  ghost predicate PassRan(live: map<int, Block>, b: Books, b': Books, rate: int, log: seq<SystemCall>) {
    && b.segs != [] && PassLog(live, b.segs[1..], log)
    && b'.segs == [b.segs[0]] + Left(live, b.segs[1..], log)
    && b'.topsize == b.topsize && b'.trimCheck == b.trimCheck
    && b'.countdown == Larger(|b.segs| - 1, if rate == 0 then 0xFFFF_FFFF_FFFF_FFFF else rate)
  }

  /** Top and the head segment after the end of top has been cut off. */
  function HeadCut(b: Books, topsize: int): Books {
    if b.segs == [] || topsize == b.topsize then b else
    b.(segs := b.segs[0 := b.segs[0].(size := b.segs[0].size - (b.topsize - topsize))], topsize := topsize,
       trimCheck := DEFAULT_TRIM_THRESHOLD)
  }

  /**
   Top is `topsize` bytes after whole units have been offered back, if it had more than `pad`: so many that more than
   `pad` and at most one unit more would be left.
   */
  ghost predicate TopTrimmed(b: Books, topsize: int, pad: int, unit: int, log: seq<SystemCall>) {
    && b.segs != [] && unit > 0
    && if b.topsize <= pad then log == [] && topsize == b.topsize
       else if log == [MayRelease(false)] then topsize == b.topsize
       else
         && |log| == 2 && log[0] == MayRelease(true) && log[1].OfferedPart?
         && log[1].base == b.segs[0].base && log[1].oldsize == b.segs[0].size
         && var cut := log[1].oldsize - log[1].newsize;
         && cut % unit == 0 && pad < b.topsize - cut <= pad + unit
         && topsize == b.topsize - if log[1].taken then cut else 0
  }

  /** How many calls `sys_trim` makes before the release pass. */
  function TopCalls(b: Books, pad: int, log: seq<SystemCall>): nat {
    if b.topsize <= pad then 0 else if log != [] && log[0] == MayRelease(true) then 2 else 1
  }

  /** `sys_trim` has run: top has been trimmed, then the release pass, and if nothing went back no trim follows soon. */
  ghost predicate TrimRan(live: map<int, Block>, b: Books, b': Books, pad: int, unit: int, rate: int,
                          log: seq<SystemCall>) {
    var n := TopCalls(b, pad + TOP_FOOT_SIZE, log);
    var mid := HeadCut(b, b'.topsize);
    && n <= |log| && TopTrimmed(b, b'.topsize, pad + TOP_FOOT_SIZE, unit, log[..n])
    && PassRan(live, mid, b'.(trimCheck := mid.trimCheck), rate, log[n..])
    && b'.trimCheck == if b'.footprint == b.footprint && b'.topsize > mid.trimCheck then 0xFFFF_FFFF_FFFF_FFFF
                       else mid.trimCheck
  }

  lemma NoTrim(b: Books, pad: int, unit: int)
    requires b.segs != [] && unit > 0
    ensures b.topsize <= pad ==> TopTrimmed(b, b.topsize, pad, unit, [])
  {
  }

  /** The calls for a top that is larger than `pad`, whatever the answers. */
  lemma TopOffered(b: Books, pad: int, unit: int, cut: int, taken: int, log: seq<SystemCall>)
    requires b.segs != [] && unit > 0 && b.topsize > pad && cut % unit == 0 && pad < b.topsize - cut <= pad + unit
    requires EndOffered(b.segs[0], cut, taken, log)
    ensures TopTrimmed(b, b.topsize - taken, pad, unit, log)
  {
  }

  /** The victim after a trim of top, which does not touch it, and a pass. */
  lemma TrimVictim(b: Books, topsize: int, pad: int, unit: int, t0: seq<SystemCall>, t1: seq<SystemCall>,
                   t2: seq<SystemCall>, base: int)
    requires t0 <= t1 <= t2 && TopTrimmed(b, topsize, pad, unit, Since(t0, t1))
    ensures Since(t0, t2) == Since(t0, t1) + Since(t1, t2)
    ensures WasOffered(Since(t0, t2), base) <==> WasOffered(Since(t1, t2), base)
  {
    assert !WasOffered(Since(t0, t1), base);
    hide WasOffered, TopTrimmed;
    assert t2[|t0|..] == t1[|t0|..] + t2[|t1|..];
    OfferedIn(Since(t0, t1), Since(t1, t2), base);
  }

  lemma TrimSplits(b: Books, topsize: int, pad: int, unit: int, first: seq<SystemCall>, rest: seq<SystemCall>)
    requires TopTrimmed(b, topsize, pad, unit, first)
    ensures TopCalls(b, pad, first + rest) == |first|
    ensures (first + rest)[..|first|] == first && (first + rest)[|first|..] == rest
  {
  }

  /** A trim of top followed by a pass, and what happens to the threshold. */
  lemma TrimOfParts(live: map<int, Block>, b: Books, mid: Books, b': Books, pad: int, unit: int, rate: int,
                    first: seq<SystemCall>, rest: seq<SystemCall>)
    requires TopTrimmed(b, mid.topsize, pad + TOP_FOOT_SIZE, unit, first)
    requires mid.segs == HeadCut(b, mid.topsize).segs && mid.trimCheck == HeadCut(b, mid.topsize).trimCheck
    requires PassRan(live, mid, b'.(trimCheck := mid.trimCheck), rate, rest)
    requires b'.trimCheck == if b'.footprint == b.footprint && b'.topsize > mid.trimCheck then 0xFFFF_FFFF_FFFF_FFFF
                             else mid.trimCheck
    ensures TrimRan(live, b, b', pad, unit, rate, first + rest)
  {
    hide PassLog, Left;
    TrimSplits(b, mid.topsize, pad + TOP_FOOT_SIZE, unit, first, rest);
    hide TopTrimmed, TopCalls;
  }

  /** The system agreed to everything it was asked. */
  predicate Willing(log: seq<SystemCall>) {
    && (forall i :: 0 <= i < |log| && log[i].MayRelease? ==> log[i].answer)
    && (forall i :: 0 <= i < |log| && log[i].Offered? ==> log[i].taken)
    && (forall i :: 0 <= i < |log| && log[i].OfferedPart? ==> log[i].taken)
  }

  lemma WillingPart(log: seq<SystemCall>, n: nat)
    requires Willing(log) && n <= |log|
    ensures Willing(log[..n]) && Willing(log[n..])
  {
    forall i | 0 <= i < |log[n..]|
      ensures log[n..][i] == log[n + i]
    {
    }
  }

  /** On a willing system a trim leaves the pad, at most one unit more, and no segment that could go. */
  lemma WillingTrim(live: map<int, Block>, b: Books, b': Books, pad: int, unit: int, rate: int, log: seq<SystemCall>)
    requires TrimRan(live, b, b', pad, unit, rate, log) && Willing(log)
    ensures unit > 0 && (b.topsize - b'.topsize) % unit == 0
    ensures b.topsize > pad + TOP_FOOT_SIZE ==>
      pad + TOP_FOOT_SIZE < b'.topsize <= pad + TOP_FOOT_SIZE + unit
    ensures b.segs != [] && forall s :: s in b'.segs[1..] <==> s in b.segs[1..] && !Vacated(live, s)
  {
    hide PassLog, Left, Vacated;
    var n := TopCalls(b, pad + TOP_FOOT_SIZE, log);
    WillingPart(log, n);
    WillingSystem(live, b.segs[1..], log[n..]);
  }

  /** Top has grown to `t` bytes, and has been trimmed if that is more than the threshold. */
  ghost predicate MaybeTrimmed(live: map<int, Block>, b: Books, t: int, b': Books, unit: int, rate: int,
                               log: seq<SystemCall>) {
    if t > b.trimCheck then TrimRan(live, b.(topsize := t), b', 0, unit, rate, log)
    else log == [] && b' == b.(topsize := t)
  }

  lemma TrimmedFrom(live: map<int, Block>, b: Books, t: int, b': Books, unit: int, rate: int, log: seq<SystemCall>)
    requires MaybeTrimmed(live, b.(topsize := t), t, b', unit, rate, log)
    ensures MaybeTrimmed(live, b, t, b', unit, rate, log)
  {
    hide TrimRan;
  }

  /**
   What freeing the block `p` does beyond the heap. Joined to top, it may cause a trim; as a large chunk of its own it
   counts towards the release pass, which runs when the countdown ends; otherwise nothing happens.
   */
  ghost predicate FreeRan(h: Heap, b: Books, b': Books, p: int, unit: int, rate: int, log: seq<SystemCall>) {
    && p in h.cs
    && var live, size := LiveOf(h.cs) - {p}, FreeTo(h, p) - FreeFrom(h, p);
    if p + h.cs[p].size == h.top then
      MaybeTrimmed(live, b, h.top + b.topsize - FreeFrom(h, p), b', unit, rate, log)
    else if MergesVictim(h, p) || IsSmall(size) then log == [] && b' == b
    else if b.countdown > 1 then log == [] && b' == b.(countdown := b.countdown - 1)
    else PassRan(live, b, b', rate, log)
  }

  /** The victim after a block has been freed: grown, gone into top or back to the system, or left alone. */
  ghost predicate VictimFreed(h: Heap, dv: int, p: int, log: seq<SystemCall>) {
    dv == if MergesVictim(h, p) then FreeFrom(h, p)
          else if h.dv == FreeFrom(h, p) || WasOffered(log, h.dv) then 0
          else h.dv
  }

  /** What is free around a block that is freed, as the code finds it. */
  lemma FreeSpan(h: Heap, p: int)
    requires Good(h, {}) && p in h.cs && h.cs[p].kind.Live?
    ensures p in h.m && FreeFrom(h, p) == (if h.cs[p].pin then p else p - h.m[p])
    ensures var lo, n := FreeFrom(h, p), p + h.cs[p].size;
      && (MergesVictim(h, p) <==> n != h.top && h.dv != 0 && (lo == h.dv || n == h.dv))
      && forall dv ::
           VictimFreed(h, dv, p, []) <==> dv == if MergesVictim(h, p) then lo else if h.dv == lo then 0 else h.dv
  {
    hide Good;
    ReadTags(h, {}, p);
    WhereFree(h, {}, p);
    SinceNothing([]);
  }

  lemma VictimThen(h: Heap, dv1: int, dv2: int, p: int, log: seq<SystemCall>)
    requires VictimFreed(h, dv1, p, []) && !MergesVictim(h, p)
    requires dv2 == if WasOffered(log, dv1) then 0 else dv1
    ensures VictimFreed(h, dv2, p, log)
  {
  }

  // ---------- disabling the periodic pass ----------

  /** A run of frees, with the state before each and after the last. */
  ghost predicate FreeRuns(hs: seq<Heap>, bs: seq<Books>, ps: seq<int>, logs: seq<seq<SystemCall>>, unit: int,
                           rate: int) {
    && |hs| == |ps| == |logs| && |bs| == |ps| + 1
    && forall i :: 0 <= i < |ps| ==> FreeRan(hs[i], bs[i], bs[i + 1], ps[i], unit, rate, logs[i])
  }

  /**
   With rate 0 no run of fewer than 2^64 - 1 frees starts the periodic pass: whenever the system is called, a block has
   joined top and top has become larger than the threshold.
   */
  lemma {:induction false} NoPeriodicPass(hs: seq<Heap>, bs: seq<Books>, ps: seq<int>, logs: seq<seq<SystemCall>>,
                                          unit: int, n: nat)
    requires FreeRuns(hs, bs, ps, logs, unit, 0) && n < |ps| < 0xFFFF_FFFF_FFFF_FFFF
    requires bs[0].countdown >= 0xFFFF_FFFF_FFFF_FFFF
    ensures bs[n].countdown >= 0xFFFF_FFFF_FFFF_FFFF - n
    ensures logs[n] != [] ==>
      && ps[n] in hs[n].cs && ps[n] + hs[n].cs[ps[n]].size == hs[n].top
      && hs[n].top + bs[n].topsize - FreeFrom(hs[n], ps[n]) > bs[n].trimCheck
  {
    hide PassLog, Left, LiveOf, TopTrimmed;
    assert FreeRan(hs[n], bs[n], bs[n + 1], ps[n], unit, 0, logs[n]);
    if n > 0 {
      NoPeriodicPass(hs, bs, ps, logs, unit, n - 1);
      assert FreeRan(hs[n - 1], bs[n - 1], bs[n - 1 + 1], ps[n - 1], unit, 0, logs[n - 1]);
    }
  }
}
