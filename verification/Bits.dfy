/** The `u32` bitmaps over bins, and the bit tricks of lines 91-102 of src/dlmalloc.rs that search them. */
module Bits {

  /** `1 << i` */
  function One(i: int): bv32
    requires 0 <= i < 32
  {
    1 << i
  }

  predicate Hit(x: bv32, mask: bv32) { x & mask != 0 }
  function Or(x: bv32, mask: bv32): bv32 { x | mask }
  function AndNot(x: bv32, mask: bv32): bv32 { x & !mask }
  function And(x: bv32, y: bv32): bv32 { x & y }

  /** `map & (1 << i) != 0` */
  predicate Bit(x: bv32, i: int)
    requires 0 <= i < 32
  {
    Hit(x, One(i))
  }

  function Mark(x: bv32, i: int): bv32
    requires 0 <= i < 32
  {
    Or(x, One(i))
  }

  function Clear(x: bv32, i: int): bv32
    requires 0 <= i < 32
  {
    AndNot(x, One(i))
  }

  function LeftBits(x: bv32): bv32 { (x << 1) | (!(x << 1) + 1) }

  function LeastBit(x: bv32): bv32 { x & (!x + 1) }

  /** `x.trailing_zeros()`, which is 32 for zero. */
  function TrailingZeros(x: bv32): (r: int)
    ensures 0 <= r <= 32
    ensures forall j :: 0 <= j < r ==> !Bit(x, j)
    ensures r < 32 ==> Bit(x, r)
  {
    FirstFrom(x, 0)
  }

  function FirstFrom(x: bv32, i: int): (r: int)
    requires 0 <= i <= 32
    ensures i <= r <= 32
    ensures forall j :: i <= j < r ==> !Bit(x, j)
    ensures r < 32 ==> Bit(x, r)
    decreases 32 - i
  {
    if i == 32 || Bit(x, i) then i else FirstFrom(x, i + 1)
  }

  // ---------- facts about masks ----------

  lemma OneApart(i: int, j: int)
    requires 0 <= i < 32 && 0 <= j < 32 && i != j
    ensures !Hit(One(i), One(j))
  {
  }

  lemma OneSelf(i: int)
    requires 0 <= i < 32
    ensures Hit(One(i), One(i))
  {
  }

  lemma OrKeeps(x: bv32, a: bv32, b: bv32)
    requires Hit(x, b)
    ensures Hit(Or(x, a), b)
  {
  }

  lemma OrAdds(x: bv32, a: bv32, b: bv32)
    requires !Hit(a, b) && !Hit(x, b)
    ensures !Hit(Or(x, a), b)
  {
  }

  lemma AndNotKeeps(x: bv32, a: bv32, b: bv32)
    requires !Hit(a, b) && Hit(x, b)
    ensures Hit(AndNot(x, a), b)
  {
  }

  lemma AndNotDrops(x: bv32, a: bv32, b: bv32)
    requires !Hit(x, b)
    ensures !Hit(AndNot(x, a), b)
  {
  }

  lemma MaskSelf(x: bv32, a: bv32)
    requires Hit(a, a)
    ensures Hit(Or(x, a), a)
    ensures !Hit(AndNot(x, a), a)
  {
  }

  /** Marking sets exactly bit `i`; clearing clears exactly bit `i`. */
  lemma MarkClear(x: bv32, i: int, j: int)
    requires 0 <= i < 32 && 0 <= j < 32
    ensures Bit(Mark(x, i), j) <==> i == j || Bit(x, j)
    ensures Bit(Clear(x, i), j) <==> i != j && Bit(x, j)
  {
    hide One, Hit, Or, AndNot;
    if i == j {
      OneSelf(i);
      MaskSelf(x, One(i));
    } else {
      OneApart(i, j);
      if Bit(x, j) {
        OrKeeps(x, One(i), One(j));
        AndNotKeeps(x, One(i), One(j));
      } else {
        OrAdds(x, One(i), One(j));
        AndNotDrops(x, One(i), One(j));
      }
    }
  }

  lemma MarkAll(x: bv32, i: int)
    requires 0 <= i < 32
    ensures forall j :: 0 <= j < 32 ==> (Bit(Mark(x, i), j) <==> j == i || Bit(x, j))
  {
    forall j | 0 <= j < 32
      ensures Bit(Mark(x, i), j) <==> j == i || Bit(x, j)
    {
      hide Bit, Mark;
      MarkClear(x, i, j);
    }
  }

  lemma ClearAll(x: bv32, i: int)
    requires 0 <= i < 32
    ensures forall j :: 0 <= j < 32 ==> (Bit(Clear(x, i), j) <==> j != i && Bit(x, j))
  {
    forall j | 0 <= j < 32
      ensures Bit(Clear(x, i), j) <==> j != i && Bit(x, j)
    {
      hide Bit, Clear;
      MarkClear(x, i, j);
    }
  }

  // ---------- the least set bit ----------

  /** `a` has at most one bit set, and `x` has no bit below it. */
  predicate Lowest(x: bv32, a: bv32) { a & (a - 1) == 0 && x & (a - 1) == 0 }

  lemma LowestStart(x: bv32)
    ensures Lowest(x, One(0))
  {
  }

  lemma OneDoubles(i: int)
    requires 0 <= i < 31
    ensures One(i + 1) == Double(One(i))
  {
  }

  function Double(a: bv32): bv32 { a + a }

  lemma LowestStep(x: bv32, a: bv32)
    requires Lowest(x, a) && !Hit(x, a)
    ensures Lowest(x, Double(a))
  {
  }

  lemma LowestIsLeast(x: bv32, a: bv32)
    requires Lowest(x, a) && Hit(x, a)
    ensures LeastBit(x) == a
  {
  }

  lemma {:induction false} NoneBelow(x: bv32, i: int)
    requires 0 <= i < 32
    requires forall j :: 0 <= j < i ==> !Bit(x, j)
    ensures Lowest(x, One(i))
  {
    hide One, Hit, Lowest, Double;
    if i == 0 {
      LowestStart(x);
    } else {
      NoneBelow(x, i - 1);
      OneDoubles(i - 1);
      assert !Bit(x, i - 1);
      LowestStep(x, One(i - 1));
    }
  }

  lemma TopClear(x: bv32)
    requires Lowest(x, One(31)) && !Hit(x, One(31))
    ensures x == 0
  {
  }

  lemma NonZeroHasBit(x: bv32)
    requires x != 0
    ensures TrailingZeros(x) < 32
  {
    hide One, Hit, Lowest;
    if TrailingZeros(x) == 32 {
      NoneBelow(x, 31);
      assert !Bit(x, 31);
      TopClear(x);
    }
  }

  lemma BitNonZero(x: bv32, i: int)
    requires 0 <= i < 32 && Bit(x, i)
    ensures x != 0
  {
  }

  /** `least_bit(x).trailing_zeros()` is the index of the least set bit of `x`. */
  lemma LeastBitIndex(x: bv32)
    requires x != 0
    ensures TrailingZeros(LeastBit(x)) == TrailingZeros(x) < 32
  {
    hide One, Hit, Lowest, LeastBit;
    NonZeroHasBit(x);
    var r := TrailingZeros(x);
    NoneBelow(x, r);
    LowestIsLeast(x, One(r));
    OneSelf(r);
    var s := TrailingZeros(One(r));
    assert Bit(One(r), r);
    if s != r {
      OneApart(r, s);
    }
  }

  // ---------- the bits above an index ----------

  lemma OneAbove(i: int, j: int)
    requires 0 <= i < 32 && 0 <= j < 32
    ensures And(LeftBits(One(i)), One(j)) == if j > i then One(j) else 0
  {
  }

  lemma MaskAndIn(l: bv32, x: bv32, b: bv32)
    requires And(l, b) == b
    ensures And(And(l, x), b) == And(x, b)
  {
  }

  lemma MaskAndOut(l: bv32, x: bv32, b: bv32)
    requires And(l, b) == 0
    ensures And(And(l, x), b) == 0
  {
  }

  lemma HitAnd(x: bv32, b: bv32)
    ensures Hit(x, b) <==> And(x, b) != 0
  {
  }

  lemma ZeroMask(x: bv32)
    ensures And(x, 0) == 0 && !Hit(x, 0) && !Hit(0, x)
  {
  }

  /** `left_bits(1 << i) & map` keeps exactly the set bits above `i`. */
  lemma LeftBitsOf(x: bv32, i: int, j: int)
    requires 0 <= i < 32 && 0 <= j < 32
    ensures Bit(And(LeftBits(One(i)), x), j) <==> j > i && Bit(x, j)
  {
    hide One, Hit, And, LeftBits;
    var l, b := LeftBits(One(i)), One(j);
    OneAbove(i, j);
    if j > i {
      MaskAndIn(l, x, b);
    } else {
      MaskAndOut(l, x, b);
    }
    HitAnd(And(l, x), b);
    HitAnd(x, b);
    ZeroMask(x);
    ZeroMask(b);
    OneSelf(j);
  }

  // ---------- what `malloc` reads off `smallmap >> idx` ----------

  function Half(x: bv32): bv32 { x >> 1 }

  /** `x >> i`, as `i` single shifts. */
  function ShiftRight(x: bv32, i: int): bv32
    requires 0 <= i < 32
    decreases i
  {
    if i == 0 then x else Half(ShiftRight(x, i - 1))
  }

  /** `x << i`, as `i` single shifts. */
  function ShiftLeft(x: bv32, i: int): bv32
    requires 0 <= i < 32
    decreases i
  {
    if i == 0 then x else Double(ShiftLeft(x, i - 1))
  }

  lemma HalfUp(x: bv32, b: bv32)
    requires b < 0x8000_0000 && Hit(x, Double(b))
    ensures Hit(Half(x), b)
  {
  }

  lemma HalfDown(x: bv32, b: bv32)
    requires b < 0x8000_0000 && !Hit(x, Double(b))
    ensures !Hit(Half(x), b)
  {
  }

  lemma HalfTop(x: bv32)
    ensures !Hit(Half(x), One(31))
  {
  }

  lemma OneSmall(i: int)
    requires 0 <= i < 31
    ensures One(i) < 0x8000_0000
  {
  }

  lemma DoubleUp(x: bv32, b: bv32)
    requires b < 0x8000_0000 && Hit(x, b)
    ensures Hit(Double(x), Double(b))
  {
  }

  lemma DoubleDown(x: bv32, b: bv32)
    requires b < 0x8000_0000 && !Hit(x, b)
    ensures !Hit(Double(x), Double(b))
  {
  }

  lemma DoubleBottom(x: bv32)
    ensures !Hit(Double(x), One(0))
  {
  }

  /** Bit `j` of `x >> i` is bit `i + j` of `x`. */
  lemma {:induction false} ShiftRightBit(x: bv32, i: int, j: int)
    requires 0 <= i < 32 && 0 <= j < 32
    ensures Bit(ShiftRight(x, i), j) <==> i + j < 32 && Bit(x, i + j)
  {
    hide One, Hit, Half, Double;
    if i > 0 {
      var y := ShiftRight(x, i - 1);
      if j == 31 {
        HalfTop(y);
      } else {
        ShiftRightBit(x, i - 1, j + 1);
        OneDoubles(j);
        OneSmall(j);
        if Bit(y, j + 1) {
          HalfUp(y, One(j));
        } else {
          HalfDown(y, One(j));
        }
      }
    }
  }

  /** Bit `j` of `x << i` is bit `j - i` of `x`. */
  lemma {:induction false} ShiftLeftBit(x: bv32, i: int, j: int)
    requires 0 <= i < 32 && 0 <= j < 32
    ensures Bit(ShiftLeft(x, i), j) <==> j >= i && Bit(x, j - i)
  {
    hide One, Hit, Half, Double;
    if i > 0 {
      var y := ShiftLeft(x, i - 1);
      if j == 0 {
        DoubleBottom(y);
      } else {
        ShiftLeftBit(x, i - 1, j - 1);
        OneDoubles(j - 1);
        OneSmall(j - 1);
        if Bit(y, j - 1) {
          DoubleUp(y, One(j - 1));
        } else {
          DoubleDown(y, One(j - 1));
        }
      }
    }
  }

  lemma LowTwo(x: bv32)
    ensures x & 3 != 0 <==> Bit(x, 0) || Bit(x, 1)
    ensures !x & 1 == if Bit(x, 0) then 0 else 1
  {
  }

  /** The bin `malloc` picks for a small request: `idx` itself or the next one, if one of the two is marked. */
  function NearBin(smallmap: bv32, idx: int): int
    requires 0 <= idx < 32
  {
    idx + (if !ShiftRight(smallmap, idx) & 1 == 1 then 1 else 0)
  }

  lemma NearBinIsMarked(smallmap: bv32, idx: int)
    requires 0 <= idx < 31
    ensures ShiftRight(smallmap, idx) & 3 != 0 <==> Bit(smallmap, idx) || Bit(smallmap, idx + 1)
    ensures NearBin(smallmap, idx) == if Bit(smallmap, idx) then idx else idx + 1
  {
    hide Bit;
    LowTwo(ShiftRight(smallmap, idx));
    ShiftRightBit(smallmap, idx, 0);
    ShiftRightBit(smallmap, idx, 1);
  }

  /** The least marked bin above `idx`, found as `malloc` finds it once bins `idx` and `idx + 1` are ruled out. */
  function NextBin(smallmap: bv32, idx: int): int
    requires 0 <= idx < 32
  {
    TrailingZeros(LeastBit(And(ShiftLeft(ShiftRight(smallmap, idx), idx), LeftBits(One(idx)))))
  }

  lemma AndComm(x: bv32, y: bv32)
    ensures And(x, y) == And(y, x)
  {
  }

  lemma NextBinIsLeast(smallmap: bv32, idx: int)
    requires 0 <= idx < 31
    requires ShiftRight(smallmap, idx) != 0
    requires !Bit(smallmap, idx)
    ensures var i := NextBin(smallmap, idx);
      idx < i < 32 && Bit(smallmap, i) && forall j :: idx < j < i ==> !Bit(smallmap, j)
  {
    hide Bit, One, And, LeftBits, ShiftRight, ShiftLeft, LeastBit;
    var s := ShiftRight(smallmap, idx);
    var y := ShiftLeft(s, idx);
    var l := And(y, LeftBits(One(idx)));
    AndComm(y, LeftBits(One(idx)));
    forall j | 0 <= j < 32
      ensures Bit(l, j) <==> j > idx && Bit(smallmap, j)
    {
      LeftBitsOf(y, idx, j);
      ShiftLeftBit(s, idx, j);
      if j > idx {
        ShiftRightBit(smallmap, idx, j - idx);
      }
    }
    NonZeroHasBit(s);
    var r := TrailingZeros(s);
    ShiftRightBit(smallmap, idx, r);
    assert Bit(l, idx + r);
    BitNonZero(l, idx + r);
    LeastBitIndex(l);
  }

  /** The least marked bin strictly above `idx`, as `tmalloc_large` computes it; 32 when there is none. */
  function BinAbove(treemap: bv32, idx: int): int
    requires 0 <= idx < 32
  {
    var leftbits := And(LeftBits(One(idx)), treemap);
    if leftbits == 0 then 32 else TrailingZeros(LeastBit(leftbits))
  }

  lemma BinAboveIsLeast(treemap: bv32, idx: int)
    requires 0 <= idx < 32
    ensures var i := BinAbove(treemap, idx);
      && idx < i <= 32
      && (i < 32 <==> And(LeftBits(One(idx)), treemap) != 0)
      && (i < 32 ==> Bit(treemap, i))
      && forall j :: idx < j < i ==> !Bit(treemap, j)
  {
    hide Bit, One, And, LeftBits, LeastBit;
    var l := And(LeftBits(One(idx)), treemap);
    forall j | 0 <= j < 32
      ensures Bit(l, j) <==> j > idx && Bit(treemap, j)
    {
      LeftBitsOf(treemap, idx, j);
    }
    if l == 0 {
      ZeroBits();
    } else {
      LeastBitIndex(l);
    }
  }

  lemma ZeroBits()
    ensures forall j :: 0 <= j < 32 ==> !Bit(0, j)
  {
    forall j | 0 <= j < 32
      ensures !Bit(0, j)
    {
      ZeroMask(One(j));
    }
  }
}
