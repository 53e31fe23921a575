/** JavaScript's 32-bit bitwise operators on numbers, written out over unbounded
    integers: the operands are converted with ToInt32/ToUint32, combined bit by bit,
    and the result is read back as a signed 32-bit integer. Shifts are repeated
    doubling and halving, so that no definition multiplies or divides by a
    variable; the lemmas at the end say when these operators agree with plain
    arithmetic on small non-negative values. */
module JsBits {

  const TWO31: int := 0x8000_0000
  const TWO32: int := 0x1_0000_0000

  function Pow2(n: nat): (r: nat)
    ensures r >= 1
  {
    if n == 0 then 1 else 2 * Pow2(n - 1)
  }

  /** x * 2^k */
  function ShiftUp(x: int, k: nat): int
  {
    if k == 0 then x else 2 * ShiftUp(x, k - 1)
  }

  /** floor(x / 2^k) */
  function ShiftDown(x: int, k: nat): int
    decreases k
  {
    if k == 0 then x else ShiftDown(x / 2, k - 1)
  }

  /** The k lowest bits of x (two's complement), as a value in [0, 2^k). */
  function LowBits(x: int, k: nat): (r: nat)
    ensures r < Pow2(k)
    decreases k
  {
    if k == 0 then 0 else 2 * LowBits(x / 2, k - 1) + x % 2
  }

  /** Bit i of x (two's complement). */
  function Bit(x: int, i: nat): nat
    decreases i
  {
    if i == 0 then x % 2 else Bit(x / 2, i - 1)
  }

  /** Bitwise AND of two non-negative integers. */
  function BitAnd(a: nat, b: nat): nat
    decreases a
  {
    if a == 0 || b == 0 then 0
    else 2 * BitAnd(a / 2, b / 2) + (if a % 2 == 1 && b % 2 == 1 then 1 else 0)
  }

  /** Bitwise OR of two non-negative integers. */
  function BitOr(a: nat, b: nat): nat
    decreases a + b
  {
    if a == 0 then b
    else if b == 0 then a
    else 2 * BitOr(a / 2, b / 2) + (if a % 2 == 1 || b % 2 == 1 then 1 else 0)
  }

  /** ECMAScript ToUint32 of an integral number. */
  function ToUint32(x: int): nat
  {
    x % 0x1_0000_0000
  }

  /** ECMAScript ToInt32 of an integral number. */
  function ToInt32(x: int): int
  {
    var u := ToUint32(x);
    if u >= TWO31 then u - TWO32 else u
  }

  /** `a & b` */
  function JsAnd(a: int, b: int): int
  {
    ToInt32(BitAnd(ToUint32(a), ToUint32(b)))
  }

  /** `a | b` */
  function JsOr(a: int, b: int): int
  {
    ToInt32(BitOr(ToUint32(a), ToUint32(b)))
  }

  /** `a << n`: only the low five bits of n count. */
  function JsShl(a: int, n: int): int
  {
    ToInt32(ShiftUp(ToUint32(a), ToUint32(n) % 32))
  }

  /** `a >> n`, the sign-propagating shift. */
  function JsShr(a: int, n: int): int
  {
    ShiftDown(ToInt32(a), ToUint32(n) % 32)
  }

  // ---------------------------------------------------------------------------
  // Powers of two and the shift functions

  lemma {:induction false} Pow2Monotone(m: nat, n: nat)
    requires m <= n
    ensures Pow2(m) <= Pow2(n)
    decreases n
  {
    if m < n {
      Pow2Monotone(m, n - 1);
    }
  }

  lemma {:induction false} ShiftUpOne(k: nat)
    ensures ShiftUp(1, k) == Pow2(k)
  {
    if k > 0 {
      ShiftUpOne(k - 1);
    }
  }

  lemma Pow2Of11()
    ensures Pow2(11) == 0x800
  {
    assert Pow2(5) == 32;
  }

  lemma Pow2Of29()
    ensures Pow2(29) == 0x2000_0000
  {
    assert Pow2(5) == 32;
    assert Pow2(11) == 0x800;
    assert Pow2(17) == 0x2_0000;
    assert Pow2(23) == 0x80_0000;
  }

  lemma Pow2Of31()
    ensures Pow2(31) == TWO31
  {
    Pow2Of29();
    assert Pow2(30) == 2 * Pow2(29);
  }

  /** Every power of two up to the 31st is at most 2^31. */
  lemma Pow2AtMost31(n: nat)
    requires n <= 31
    ensures Pow2(n) <= TWO31
  {
    Pow2Monotone(n, 31);
    Pow2Of31();
  }

  lemma {:induction false} ShiftUpNonneg(x: int, k: nat)
    requires x >= 0
    ensures ShiftUp(x, k) >= x
  {
    if k > 0 {
      ShiftUpNonneg(x, k - 1);
    }
  }

  /** A value below 2^b shifted up by p is below 2^(b + p). */
  lemma {:induction false} ShiftUpBelow(x: int, b: nat, p: nat)
    requires 0 <= x < Pow2(b)
    ensures 0 <= ShiftUp(x, p) < Pow2(b + p)
  {
    if p > 0 {
      ShiftUpBelow(x, b, p - 1);
    }
  }

  lemma {:induction false} ShiftDownNonneg(x: int, k: nat)
    requires x >= 0
    ensures 0 <= ShiftDown(x, k) <= x
    decreases k
  {
    if k > 0 {
      ShiftDownNonneg(x / 2, k - 1);
    }
  }

  lemma {:induction false} LowBitsOfSmall(x: int, k: nat)
    requires 0 <= x < Pow2(k)
    ensures LowBits(x, k) == x
    decreases k
  {
    if k > 0 {
      LowBitsOfSmall(x / 2, k - 1);
    }
  }

  lemma {:induction false} ShiftDownAdd(x: int, a: nat, b: nat)
    ensures ShiftDown(ShiftDown(x, a), b) == ShiftDown(x, a + b)
    decreases a
  {
    if a > 0 {
      ShiftDownAdd(x / 2, a - 1, b);
    }
  }

  /** The b + t low bits of x are its b low bits with the next t bits on top. */
  lemma {:induction false} LowBitsSplit(x: int, b: nat, t: nat)
    ensures LowBits(x, b + t) == LowBits(x, b) + ShiftUp(LowBits(ShiftDown(x, b), t), b)
    decreases b
  {
    if b > 0 {
      LowBitsSplit(x / 2, b - 1, t);
      assert LowBits(x, b + t) == 2 * LowBits(x / 2, b - 1 + t) + x % 2;
    }
  }

  // ---------------------------------------------------------------------------
  // Bit-level facts

  lemma {:induction false} BitIsBit(x: int, i: nat)
    ensures Bit(x, i) == 0 || Bit(x, i) == 1
    decreases i
  {
    if i > 0 {
      BitIsBit(x / 2, i - 1);
    }
  }

  lemma {:induction false} BitOfZero(i: nat)
    ensures Bit(0, i) == 0
  {
    if i > 0 {
      BitOfZero(i - 1);
    }
  }

  /** 2^k - 1, the mask of the k low bits. */
  function Mask(k: nat): nat
  {
    if k == 0 then 0 else 2 * Mask(k - 1) + 1
  }

  lemma {:induction false} MaskIsPow2(k: nat)
    ensures Mask(k) == Pow2(k) - 1
  {
    if k > 0 {
      MaskIsPow2(k - 1);
    }
  }

  /** `x & (2^k - 1)` keeps the k low bits. */
  lemma {:induction false} BitAndMask(x: nat, k: nat)
    ensures BitAnd(x, Mask(k)) == LowBits(x, k)
    decreases k
  {
    if k > 0 {
      assert Mask(k) / 2 == Mask(k - 1) && Mask(k) % 2 == 1;
      BitAndMask(x / 2, k - 1);
    }
  }

  lemma {:induction false} BitAndBelow(a: nat, b: nat)
    ensures BitAnd(a, b) <= b
    decreases a
  {
    if a != 0 && b != 0 {
      BitAndBelow(a / 2, b / 2);
    }
  }

  lemma {:induction false} BitOrBound(a: nat, b: nat, n: nat)
    requires a < Pow2(n) && b < Pow2(n)
    ensures BitOr(a, b) < Pow2(n)
    decreases a + b
  {
    if a != 0 && b != 0 {
      assert n > 0;
      BitOrBound(a / 2, b / 2, n - 1);
    }
  }

  /** Or-ing in a value that sits wholly above the bits of a is addition. */
  lemma {:induction false} BitOrShiftAdd(a: nat, c: nat, p: nat)
    requires a < Pow2(p)
    ensures ShiftUp(c, p) >= 0
    ensures BitOr(a, ShiftUp(c, p)) == a + ShiftUp(c, p)
    decreases p
  {
    ShiftUpNonneg(c, p);
    if p > 0 && a != 0 && ShiftUp(c, p) != 0 {
      BitOrShiftAdd(a / 2, c, p - 1);
    }
  }

  lemma {:induction false} BitOfOr(a: nat, b: nat, i: nat)
    ensures Bit(BitOr(a, b), i) == if Bit(a, i) == 1 || Bit(b, i) == 1 then 1 else 0
    decreases a + b
  {
    BitIsBit(a, i);
    BitIsBit(b, i);
    if a == 0 || b == 0 {
      BitOfZero(i);
    } else if i > 0 {
      BitOfOr(a / 2, b / 2, i - 1);
    }
  }

  lemma {:induction false} BitOfShiftDown(x: int, p: nat, j: nat)
    ensures Bit(ShiftDown(x, p), j) == Bit(x, p + j)
    decreases p
  {
    if p > 0 {
      BitOfShiftDown(x / 2, p - 1, j);
    }
  }

  lemma {:induction false} BitOfLowBits(x: int, b: nat, j: nat)
    ensures Bit(LowBits(x, b), j) == if j < b then Bit(x, j) else 0
    decreases b
  {
    if b == 0 {
      BitOfZero(j);
    } else if j > 0 {
      BitOfLowBits(x / 2, b - 1, j - 1);
    }
  }

  /** Bits of a value shifted up by p. */
  lemma {:induction false} BitOfShiftUp(c: int, p: nat, i: nat)
    ensures Bit(ShiftUp(c, p), i) == if i < p then 0 else Bit(c, i - p)
    decreases p
  {
    if p > 0 && i > 0 {
      BitOfShiftUp(c, p - 1, i - 1);
    }
  }

  /** A value below 2^b has no bit at b or above. */
  lemma {:induction false} BitAboveWidth(c: nat, b: nat, i: nat)
    requires c < Pow2(b) && b <= i
    ensures Bit(c, i) == 0
    decreases i
  {
    if b == 0 {
      BitOfZero(i);
    } else {
      BitAboveWidth(c / 2, b - 1, i - 1);
    }
  }

  /** Two values below 2^n that agree on their n low bits are equal. */
  lemma {:induction false} BitsDetermine(a: nat, b: nat, n: nat)
    requires a < Pow2(n) && b < Pow2(n)
    requires forall i :: 0 <= i < n ==> Bit(a, i) == Bit(b, i)
    ensures a == b
    decreases n
  {
    if n > 0 {
      forall i | 0 <= i < n - 1
        ensures Bit(a / 2, i) == Bit(b / 2, i)
      {
        assert Bit(a, i + 1) == Bit(b, i + 1);
      }
      BitsDetermine(a / 2, b / 2, n - 1);
      assert Bit(a, 0) == Bit(b, 0);
    }
  }

  // ---------------------------------------------------------------------------
  // When the 32-bit operators agree with arithmetic

  /** ToUint32 lands in [0, 2^32) and leaves values there as they are. */
  lemma ToUint32Range(x: int)
    ensures 0 <= ToUint32(x) < TWO32
    ensures 0 <= x < TWO32 ==> ToUint32(x) == x
  {
  }

  /** ToInt32 lands in [-2^31, 2^31) and leaves values there as they are. */
  lemma ToInt32Range(x: int)
    ensures -TWO31 <= ToInt32(x) < TWO31
    ensures -TWO31 <= x < TWO31 ==> ToInt32(x) == x
  {
  }

  /** A mask of at most 31 bits is a non-negative 31-bit value. */
  lemma MaskFits(k: nat)
    requires k <= 31
    ensures 0 <= Pow2(k) - 1 < TWO31
  {
    Pow2Monotone(k, 31);
    Pow2Of31();
  }

  /** On non-negative 31-bit operands `&` is BitAnd. */
  lemma JsAndSmall(a: int, b: int)
    requires 0 <= a < TWO31 && 0 <= b < TWO31
    ensures JsAnd(a, b) == BitAnd(a, b)
  {
    ToUint32Range(a);
    ToUint32Range(b);
    BitAndBelow(a, b);
    ToInt32Range(BitAnd(a, b));
  }

  /** `a & (2^k - 1)` on a non-negative 31-bit value keeps its k low bits. */
  lemma JsAndMask(a: int, k: nat)
    requires 0 <= a < TWO31 && k <= 31
    ensures JsAnd(a, Pow2(k) - 1) == LowBits(a, k)
  {
    MaskFits(k);
    JsAndSmall(a, Pow2(k) - 1);
    MaskIsPow2(k);
    BitAndMask(a, k);
  }

  /** `a & m` with a non-negative 31-bit mask never exceeds the mask. */
  lemma JsAndWithin(a: int, m: int)
    requires 0 <= m < TWO31
    ensures 0 <= JsAnd(a, m) <= m
  {
    ToUint32Range(m);
    BitAndBelow(ToUint32(a), m);
    ToInt32Range(BitAnd(ToUint32(a), m));
  }

  /** A shift count below 32 is used as it is. */
  lemma ShiftCount(n: int)
    requires 0 <= n < 32
    ensures ToUint32(n) % 32 == n
  {
    ToUint32Range(n);
  }

  lemma JsShrSmall(a: int, k: nat)
    requires 0 <= a < TWO31 && k < 32
    ensures JsShr(a, k) == ShiftDown(a, k)
  {
    ToInt32Range(a);
    ShiftCount(k);
  }

  lemma JsShlSmall(c: int, p: nat)
    requires 0 <= c && p < 32 && ShiftUp(c, p) < TWO31
    ensures JsShl(c, p) == ShiftUp(c, p)
  {
    ShiftUpNonneg(c, p);
    ShiftCount(p);
    ToUint32Range(c);
    ToInt32Range(ShiftUp(c, p));
  }

  lemma JsOrSmall(a: int, b: int)
    requires 0 <= a < TWO31 && 0 <= b < TWO31
    ensures JsOr(a, b) == BitOr(a, b) && 0 <= JsOr(a, b) < TWO31
  {
    Pow2Of31();
    ToUint32Range(a);
    ToUint32Range(b);
    BitOrBound(a, b, 31);
    ToInt32Range(BitOr(a, b));
  }

  /** Setting bit 31 with `|` on a 31-bit value yields a negative number. */
  lemma {:induction false} JsOrBit31(id: int)
    requires 0 <= id < TWO31
    ensures JsOr(id, 0x8000_0000) == id - TWO31
  {
    Pow2Of31();
    ShiftUpOne(31);
    ToUint32Range(id);
    ToUint32Range(0x8000_0000);
    BitOrShiftAdd(id, 1, 31);
  }
}
