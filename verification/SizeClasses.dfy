/**
 Which bin a size belongs to, and how its remaining bits spell a path in that bin's trie.

 A trie position is a `Key`: the root of a bin, or the left or right kid of another position. Each position owns
 an interval of sizes; the kids halve it. Nothing here looks at memory.
 */
module SizeClasses {
  import opened Words

  const SIGN_BIT: int := 0x8000_0000_0000_0000
  const MIN_LARGE_SIZE: int := 256

  function Pow2(e: int): (p: int)
    ensures p >= 1
    decreases e
  {
    if e <= 0 then 1 else 2 * Pow2(e - 1)
  }

  /** `63 - x.leading_zeros()` */
  function Log2(x: int): (k: int)
    requires x >= 1
    ensures k >= 0 && Pow2(k) <= x < Pow2(k + 1)
  {
    if x < 2 then 0 else 1 + Log2(x / 2)
  }

  predicate IsSmall(size: int) { size / 8 < 32 }

  function SmallIndex(size: int): int { size / 8 }

  lemma SmallIndexExact(size: int)
    ensures size % 16 == 0 ==> size == 8 * SmallIndex(size)
  {
  }

  /** `compute_tree_index` */
  function TreeIndex(size: int): int
    requires 0 <= size
  {
    var x := size / 256;
    if x == 0 then 0
    else if x > 0xffff then 31
    else
      var k := Log2(x);
      2 * k + size / Pow2(k + 7) % 2
  }

  /** `min_size_for_tree_index` */
  function MinSizeForTreeIndex(idx: int): int
    requires 0 <= idx < 32
  {
    Pow2(idx / 2 + 8) + (if idx % 2 == 1 then Pow2(idx / 2 + 7) else 0)
  }

  /** `leftshift_for_tree_index` */
  function LeftShiftForTreeIndex(idx: int): int {
    if idx == 31 then 0 else 63 - (idx / 2 + 6)
  }

  /** `x << s` on a 64-bit word */
  function Shl(x: int, s: int): int { x * Pow2(s) % WORD_LIMIT }

  /** `(sizebits >> 63) & 1` */
  predicate TopBit(sizebits: int) { sizebits / SIGN_BIT % 2 == 1 }

  // ---------- powers of two ----------

  lemma {:induction false} Pow2Adds(a: int, b: int)
    requires a >= 0 && b >= 0
    ensures Pow2(a) * Pow2(b) == Pow2(a + b)
    decreases a
  {
    if a > 0 {
      Pow2Adds(a - 1, b);
      assert Pow2(a) * Pow2(b) == 2 * (Pow2(a - 1) * Pow2(b));
    }
  }

  lemma {:induction false} Pow2Monotone(a: int, b: int)
    requires 0 <= a <= b
    ensures Pow2(a) <= Pow2(b)
    decreases b - a
  {
    if a < b {
      Pow2Monotone(a + 1, b);
    }
  }

  lemma Pow2Constants()
    ensures Pow2(7) == 128 && Pow2(8) == 256 && Pow2(16) == 0x1_0000
    ensures Pow2(22) == 0x40_0000 && Pow2(23) == 0x80_0000 && Pow2(64) == WORD_LIMIT
  {
    assert Pow2(4) == 16;
    Pow2Adds(4, 3);
    Pow2Adds(4, 4);
    Pow2Adds(8, 8);
    Pow2Adds(16, 7);
    Pow2Adds(16, 16);
    Pow2Adds(32, 32);
  }

  lemma Pow2Step(e: int)
    requires e >= 1
    ensures Pow2(e) == 2 * Pow2(e - 1)
  {
  }

  lemma QuotientIs(n: int, d: int, q: int)
    requires d > 0 && q * d <= n < q * d + d
    ensures n / d == q
  {
    var q' := n / d;
    assert 0 <= n - q' * d < d;
    assert (q - q') * d == q * d - q' * d;
    SmallMultiple(q - q', d);
  }

  lemma SmallMultiple(x: int, d: int)
    requires d > 0 && -d < x * d < d
    ensures x == 0
  {
  }

  lemma WholeMultiple(q: int, d: int)
    requires d > 0
    ensures q * d % d == 0
  {
    var e := q * d / d;
    assert 0 <= q * d - e * d < d;
    assert (q - e) * d == q * d - e * d;
    SmallMultiple(q - e, d);
  }

  // ---------- bins ----------

  /** Every large size lies between the least size of its bin and that of the next bin. */
  lemma TreeIndexInterval(size: int)
    requires MIN_LARGE_SIZE <= size
    ensures var idx := TreeIndex(size);
      && 0 <= idx < 32
      && MinSizeForTreeIndex(idx) <= size
      && (idx < 31 ==> size < MinSizeForTreeIndex(idx + 1))
  {
    if size / 256 > 0xffff {
      Pow2Constants();
    } else {
      LowTreeIndexInterval(size);
    }
  }

  lemma LowTreeIndexInterval(size: int)
    requires 1 <= size / 256 <= 0xffff
    ensures var idx := TreeIndex(size);
      && 0 <= idx < 32
      && MinSizeForTreeIndex(idx) <= size
      && (idx < 31 ==> size < MinSizeForTreeIndex(idx + 1))
  {
    var k := Log2(size / 256);
    assert 0 <= k;
    assert Pow2(k) <= size / 256 < Pow2(k + 1);
    hide Pow2, Log2, TreeIndex, MinSizeForTreeIndex;
    LogBound(size / 256);
    TreeIndexHalves(size);
    HalfRange(size, k);
    MinSizeHalves(k);
    var h := Pow2(k + 7);
    if size < 3 * h {
      assert TreeIndex(size) == 2 * k;
    } else {
      assert TreeIndex(size) == 2 * k + 1;
    }
  }

  lemma LogBound(x: int)
    requires 1 <= x <= 0xffff
    ensures Log2(x) <= 15
  {
    var k := Log2(x);
    Pow2Constants();
    hide Pow2, Log2;
    if k >= 16 {
      Pow2Monotone(16, k);
    }
  }

  lemma TreeIndexHalves(size: int)
    requires 1 <= size / 256 <= 0xffff
    ensures var k := Log2(size / 256); TreeIndex(size) == 2 * k + if size < 3 * Pow2(k + 7) then 0 else 1
  {
    var k := Log2(size / 256);
    HalfRange(size, k);
    var h := Pow2(k + 7);
    hide Pow2, Log2;
    if size < 3 * h {
      QuotientIs(size, h, 2);
    } else {
      QuotientIs(size, h, 3);
    }
  }

  lemma HalfRange(size: int, k: int)
    requires 0 <= k && Pow2(k) <= size / 256 < Pow2(k + 1)
    ensures 2 * Pow2(k + 7) <= size < 4 * Pow2(k + 7)
  {
    assert Pow2(8) == 256 by { Pow2Constants(); }
    hide Pow2;
    Pow2Adds(8, k);
    Pow2Step(k + 1);
    Pow2Step(k + 8);
  }

  lemma MinSizeHalves(k: int)
    requires 0 <= k <= 15
    ensures MinSizeForTreeIndex(2 * k) == 2 * Pow2(k + 7)
    ensures MinSizeForTreeIndex(2 * k + 1) == 3 * Pow2(k + 7)
    ensures k < 15 ==> MinSizeForTreeIndex(2 * k + 2) == 4 * Pow2(k + 7)
  {
    hide Pow2;
    Pow2Step(k + 8);
    Pow2Step(k + 9);
    assert 2 * k / 2 == k && (2 * k + 1) / 2 == k && (2 * k + 2) / 2 == k + 1;
  }

  lemma MinSizeStep(i: int)
    requires 0 <= i < 31
    ensures MinSizeForTreeIndex(i + 1) == MinSizeForTreeIndex(i) + Pow2(i / 2 + 7)
  {
    hide Pow2;
    Pow2Step(i / 2 + 9);
    Pow2Step(i / 2 + 8);
  }

  /** The bins' intervals follow one another without overlap. */
  lemma {:induction false} MinSizeIncreases(i: int, j: int)
    requires 0 <= i < j < 32
    ensures MinSizeForTreeIndex(i) < MinSizeForTreeIndex(j)
    decreases j
  {
    hide MinSizeForTreeIndex;
    if i < j - 1 {
      MinSizeIncreases(i, j - 1);
    }
    MinSizeStep(j - 1);
  }

  /** A larger size never falls in a lower bin. */
  lemma TreeIndexMonotone(a: int, b: int)
    requires MIN_LARGE_SIZE <= a <= b
    ensures TreeIndex(a) <= TreeIndex(b)
  {
    TreeIndexInterval(a);
    TreeIndexInterval(b);
    if TreeIndex(b) < TreeIndex(a) {
      if TreeIndex(b) + 1 < TreeIndex(a) {
        MinSizeIncreases(TreeIndex(b) + 1, TreeIndex(a));
      }
    }
  }

  /** A size is the least of its bin or more exactly when its bin is that bin or a later one. */
  lemma TreeIndexSpec(size: int, idx: int)
    requires MIN_LARGE_SIZE <= size && 0 <= idx < 32
    ensures TreeIndex(size) == idx <==>
      MinSizeForTreeIndex(idx) <= size && (idx < 31 ==> size < MinSizeForTreeIndex(idx + 1))
  {
    TreeIndexInterval(size);
    var t := TreeIndex(size);
    if t < idx {
      if t + 1 < idx {
        MinSizeIncreases(t + 1, idx);
      }
    } else if idx < t {
      if idx + 1 < t {
        MinSizeIncreases(idx + 1, t);
      }
    }
  }

  // ---------- trie positions ----------

  datatype Key = Root(bin: int) | Kid(up: Key, right: bool)

  function Bin(k: Key): int {
    match k
    case Root(b) => b
    case Kid(up, _) => Bin(up)
  }

  /** The root of a bin leaves this many low bits of the size free. */
  function RootExp(bin: int): int {
    if bin == 31 then 64 else bin / 2 + 7
  }

  function Exp(k: Key): int {
    match k
    case Root(b) => RootExp(b)
    case Kid(up, _) => Exp(up) - 1
  }

  /** The least size on this path. The catch-all bin 31 branches on all 64 bits, starting from zero. */
  function Lo(k: Key): int {
    match k
    case Root(b) => if 0 <= b < 31 then MinSizeForTreeIndex(b) else 0
    case Kid(up, right) => Lo(up) + (if right then Pow2(Exp(up) - 1) else 0)
  }

  function Hi(k: Key): int { Lo(k) + Pow2(Exp(k)) }

  predicate Owns(k: Key, size: int) { Lo(k) <= size < Hi(k) }

  /** `a` is `k` or one of the positions above it. */
  predicate Under(a: Key, k: Key) {
    a == k || (k.Kid? && Under(a, k.up))
  }

  /** The kid of `k` on whose path `size` lies. */
  function Towards(k: Key, size: int): Key {
    Kid(k, size >= Lo(k) + Pow2(Exp(k) - 1))
  }

  lemma KidsHalve(k: Key)
    requires Exp(k) >= 1
    ensures Hi(Kid(k, false)) == Lo(Kid(k, true))
    ensures Hi(Kid(k, true)) == Hi(k)
    ensures Lo(Kid(k, false)) == Lo(k)
  {
    hide Pow2, MinSizeForTreeIndex, RootExp;
    Pow2Step(Exp(k));
  }

  lemma TowardsOwns(k: Key, size: int)
    requires Exp(k) >= 1 && Owns(k, size)
    ensures Owns(Towards(k, size), size)
    ensures Exp(Towards(k, size)) == Exp(k) - 1 && Bin(Towards(k, size)) == Bin(k)
  {
    hide Pow2;
    KidsHalve(k);
  }

  /** Two different sizes on one path have a bit left to tell them apart. */
  lemma RoomToDescend(k: Key, a: int, b: int)
    requires Exp(k) >= 0 && Owns(k, a) && Owns(k, b) && a != b
    ensures Exp(k) >= 1
  {
  }

  lemma {:induction false} UnderInside(a: Key, k: Key)
    requires Under(a, k) && Exp(k) >= 0
    ensures Bin(a) == Bin(k) && Lo(a) <= Lo(k) && Hi(k) <= Hi(a)
    ensures Exp(k) <= Exp(a) && (a != k ==> Exp(k) < Exp(a))
    decreases k
  {
    if a != k {
      UnderInside(a, k.up);
      KidsHalve(k.up);
    }
  }

  lemma {:induction false} UnderTrans(a: Key, b: Key, c: Key)
    requires Under(a, b) && Under(b, c)
    ensures Under(a, c)
    decreases c
  {
    if b != c {
      UnderTrans(a, b, c.up);
    }
  }

  /** A position strictly below `a` is below one of its kids. */
  lemma {:induction false} UnderKid(a: Key, k: Key) returns (right: bool)
    requires Under(a, k) && a != k
    ensures Under(Kid(a, right), k)
    decreases k
  {
    if k.up == a {
      right := k.right;
    } else {
      right := UnderKid(a, k.up);
    }
  }

  lemma {:induction false} UnderRoot(k: Key)
    ensures Under(Root(Bin(k)), k)
    decreases k
  {
    if k.Kid? {
      UnderRoot(k.up);
    }
  }

  /** Two positions of one bin that own a common size are on one path. */
  lemma {:induction false} Nested(a: Key, b: Key, size: int)
    requires Bin(a) == Bin(b) && Exp(a) >= 0 && Exp(b) >= 0
    requires Owns(a, size) && Owns(b, size)
    ensures Under(a, b) || Under(b, a)
    decreases a
  {
    match a
    case Root(_) => UnderRoot(b);
    case Kid(up, right) =>
      UnderInside(up, a);
      Nested(up, b, size);
      if Under(up, b) && b != up {
        var r := UnderKid(up, b);
        if r != right {
          UnderInside(Kid(up, r), b);
          KidsHalve(up);
        }
      }
  }

  // ---------- reading the path off the size, one bit at a time ----------

  /** `sizebits` holds the bits of `size` that position `k` leaves open, moved to the top of the word. */
  predicate Aligned(sizebits: int, size: int, k: Key) {
    && 0 <= sizebits < WORD_LIMIT
    && sizebits * Pow2(Exp(k)) == (size - Lo(k)) * WORD_LIMIT
  }

  lemma ShiftedAtRoot(size: int, idx: int)
    requires MIN_LARGE_SIZE <= size < WORD_LIMIT && idx == TreeIndex(size)
    ensures 0 <= idx < 32
    ensures Owns(Root(idx), size) && Exp(Root(idx)) >= 0
    ensures Aligned(Shl(size, LeftShiftForTreeIndex(idx)), size, Root(idx))
  {
    hide Pow2, TreeIndex, MinSizeForTreeIndex;
    TreeIndexInterval(size);
    if idx == 31 {
      CatchAllRoot(size);
    } else {
      RootInterval(idx);
      ShiftedAtLowRoot(size, idx);
    }
  }

  lemma CatchAllRoot(size: int)
    requires 0 <= size < WORD_LIMIT
    ensures Owns(Root(31), size)
    ensures Aligned(Shl(size, 0), size, Root(31))
  {
    Pow2Constants();
    assert Pow2(0) == 1;
    hide Pow2;
    assert Shl(size, 0) == size;
  }

  lemma ShiftedAtLowRoot(size: int, idx: int)
    requires 0 <= idx < 31 && Owns(Root(idx), size)
    ensures Aligned(Shl(size, LeftShiftForTreeIndex(idx)), size, Root(idx))
  {
    var w := idx / 2 + 7;
    var q := if idx % 2 == 1 then 3 else 2;
    assert Pow2(64) == WORD_LIMIT by { Pow2Constants(); }
    hide Pow2;
    Pow2Step(w + 1);
    Pow2Adds(64 - w, w);
    var p, s, lo := Pow2(w), Pow2(64 - w), Lo(Root(idx));
    assert lo == q * p;
    hide MinSizeForTreeIndex, Lo;
    ShiftOut(q, p, s, size - lo);
  }

  lemma RootInterval(idx: int)
    requires 0 <= idx < 31
    ensures Lo(Root(idx)) == MinSizeForTreeIndex(idx)
    ensures Hi(Root(idx)) == MinSizeForTreeIndex(idx + 1)
  {
    hide Pow2;
    MinSizeStep(idx);
  }

  /** Multiplying by `s` pushes the `q` part of `q * p + d` out of a word of `p * s` values. */
  lemma ShiftOut(q: int, p: int, s: int, d: int)
    requires p > 0 && s > 0 && s * p == WORD_LIMIT && 0 <= d < p
    ensures var r := (q * p + d) * s % WORD_LIMIT; 0 <= r < WORD_LIMIT && r * p == d * WORD_LIMIT
  {
    var r := d * s;
    assert (q * p + d) * s == q * WORD_LIMIT + r by {
      assert (q * p + d) * s == q * (s * p) + d * s;
    }
    assert 0 <= r < WORD_LIMIT by {
      assert (p - d) * s > 0;
      assert (p - d) * s == s * p - d * s;
    }
    assert r * p == d * (s * p);
  }

  /** The top bit picks the kid that owns the size, and shifting it out moves on to that kid. */
  lemma TopBitPicksKid(sizebits: int, size: int, k: Key)
    requires Exp(k) >= 1 && Owns(k, size) && Aligned(sizebits, size, k)
    ensures TopBit(sizebits) == Towards(k, size).right
    ensures Aligned(Shl(sizebits, 1), size, Towards(k, size))
  {
    var h, d := Pow2(Exp(k) - 1), size - Lo(k);
    var t := Towards(k, size);
    assert Lo(t) == (if d >= h then Lo(k) + h else Lo(k)) && Exp(t) == Exp(k) - 1;
    ShlOne(sizebits);
    Pow2Step(Exp(k));
    hide Pow2, Lo, Exp, Shl;
    ShiftOneOut(sizebits, d, h);
  }

  lemma ShlOne(x: int)
    ensures Shl(x, 1) == 2 * x % WORD_LIMIT
  {
    assert Pow2(1) == 2;
  }

  lemma ShiftOneOut(b: int, d: int, h: int)
    requires 0 <= b < WORD_LIMIT && h >= 1
    requires b * (2 * h) == d * WORD_LIMIT
    ensures b >= SIGN_BIT <==> d >= h
    ensures (2 * b % WORD_LIMIT) * h == (if d >= h then d - h else d) * WORD_LIMIT
  {
    assert b * h == d * SIGN_BIT by { assert b * (2 * h) == 2 * (b * h); }
    assert b >= SIGN_BIT <==> d >= h by { Scaled(b, SIGN_BIT, d, h); }
    ShiftWraps(b);
    if d >= h {
      assert (2 * b - WORD_LIMIT) * h == 2 * (b * h) - WORD_LIMIT * h;
    } else {
      assert (2 * b) * h == 2 * (b * h);
    }
  }

  lemma ShiftWraps(b: int)
    requires 0 <= b < WORD_LIMIT
    ensures 2 * b % WORD_LIMIT == if b >= SIGN_BIT then 2 * b - WORD_LIMIT else 2 * b
  {
  }

  lemma Scaled(b: int, s: int, d: int, h: int)
    requires h >= 1 && s >= 1 && b * h == d * s
    ensures b >= s <==> d >= h
  {
    if b >= s {
      assert (b - s) * h >= 0;
      assert (d - h) * s == (b - s) * h;
    } else {
      assert (s - b) * h > 0;
      assert (h - d) * s == (s - b) * h;
    }
  }
}
