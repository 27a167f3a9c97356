/** Powers of two, bit lengths, shifts and the bitwise operators on non-negative numbers.
    Shifts are defined by doubling and halving, which keeps their laws linear. */
module Bits {

  function ShiftLeft(x: nat, k: nat): nat {
    if k == 0 then x else 2 * ShiftLeft(x, k - 1)
  }

  function ShiftRight(x: nat, k: nat): nat {
    if k == 0 then x else ShiftRight(x / 2, k - 1)
  }

  function Pow2(n: nat): (p: nat)
    ensures p >= 1
  {
    if n == 0 then 1 else 2 * Pow2(n - 1)
  }

  lemma Pow2Zero()
    ensures Pow2(0) == 1
  {
  }

  lemma Pow2Next(n: nat)
    ensures Pow2(n + 1) == 2 * Pow2(n)
  {
  }

  lemma ShiftLeftNext(x: nat, k: nat)
    ensures ShiftLeft(x, k + 1) == 2 * ShiftLeft(x, k)
  {
  }

  lemma {:induction false} ShiftLeftOne(k: nat)
    ensures ShiftLeft(1, k) == Pow2(k)
  {
    if k == 0 {
    } else {
      ShiftLeftOne(k - 1);
    }
  }

  lemma {:induction false} ShiftLeftZero(k: nat)
    ensures ShiftLeft(0, k) == 0
  {
    if k == 0 {
    } else {
      ShiftLeftZero(k - 1);
    }
  }

  lemma {:induction false} ShiftLeftAdd(x: nat, y: nat, k: nat)
    ensures ShiftLeft(x + y, k) == ShiftLeft(x, k) + ShiftLeft(y, k)
  {
    if k == 0 {
    } else {
      ShiftLeftAdd(x, y, k - 1);
    }
  }

  lemma {:induction false} ShiftLeftTwice(x: nat, a: nat, b: nat)
    ensures ShiftLeft(ShiftLeft(x, a), b) == ShiftLeft(x, a + b)
  {
    if b == 0 {
    } else {
      ShiftLeftTwice(x, a, b - 1);
    }
  }

  lemma {:induction false} ShiftLeftOrder(x: nat, y: nat, k: nat)
    ensures x < y <==> ShiftLeft(x, k) < ShiftLeft(y, k)
    ensures x == y <==> ShiftLeft(x, k) == ShiftLeft(y, k)
  {
    if k == 0 {
    } else {
      ShiftLeftOrder(x, y, k - 1);
    }
  }

  lemma {:induction false} ShiftLeftPow2(a: nat, b: nat)
    ensures ShiftLeft(Pow2(a), b) == Pow2(a + b)
  {
    if b == 0 {
    } else {
      ShiftLeftPow2(a, b - 1);
    }
  }

  lemma {:induction false} ShiftLeftGrows(x: nat, k: nat)
    ensures x <= ShiftLeft(x, k)
  {
    if k == 0 {
    } else {
      ShiftLeftGrows(x, k - 1);
    }
  }

  lemma {:induction false} Pow2Less(a: nat, b: nat)
    requires a < b
    ensures 2 * Pow2(a) <= Pow2(b)
  {
    if a + 1 < b { Pow2Less(a, b - 1); }
  }

  lemma Pow2Order(a: nat, b: nat)
    ensures a < b <==> Pow2(a) < Pow2(b)
    ensures a == b <==> Pow2(a) == Pow2(b)
  {
    if a < b { Pow2Less(a, b); }
    if b < a { Pow2Less(b, a); }
  }

  /** Shifting right is division by a power of two, rounding down. */
  lemma {:induction false} ShiftRightBounds(x: nat, k: nat)
    ensures ShiftLeft(ShiftRight(x, k), k) <= x < ShiftLeft(ShiftRight(x, k) + 1, k)
  {
    if k == 0 {
    } else {
      ShiftRightBounds(x / 2, k - 1);
    }
  }

  lemma ShiftRightIs(x: nat, k: nat, q: nat)
    requires ShiftLeft(q, k) <= x < ShiftLeft(q + 1, k)
    ensures ShiftRight(x, k) == q
  {
    ShiftRightBounds(x, k);
    ShiftLeftOrder(q, ShiftRight(x, k) + 1, k);
    ShiftLeftOrder(ShiftRight(x, k), q + 1, k);
  }

  /** The number of bits needed to write x. */
  function BitLen(x: nat): nat {
    if x == 0 then 0 else 1 + BitLen(x / 2)
  }

  lemma {:induction false} BitLenAtMost(x: nat, n: nat)
    ensures BitLen(x) <= n <==> x < Pow2(n)
  {
    if x > 0 && n > 0 { BitLenAtMost(x / 2, n - 1); }
  }

  lemma BitLenIs(x: nat, n: nat)
    requires Pow2(n) <= x < Pow2(n + 1)
    ensures BitLen(x) == n + 1
  {
    BitLenAtMost(x, n);
    BitLenAtMost(x, n + 1);
  }

  lemma {:induction false} ShiftRightZero(k: nat)
    ensures ShiftRight(0, k) == 0
  {
    if k == 0 {
    } else {
      ShiftRightZero(k - 1);
    }
  }

  /** Shifting k places to the right drops k bits, if any remain. */
  lemma {:induction false} BitLenShift(x: nat, k: nat)
    requires ShiftRight(x, k) != 0
    ensures BitLen(x) == k + BitLen(ShiftRight(x, k))
  {
    if k == 0 {
    } else {
      if x == 0 { ShiftRightZero(k); }
      BitLenShift(x / 2, k - 1);
    }
  }

  function BitOr(a: nat, b: nat): nat
    decreases a + b
  {
    if a == 0 then b
    else if b == 0 then a
    else 2 * BitOr(a / 2, b / 2) + (if a % 2 == 1 || b % 2 == 1 then 1 else 0)
  }

  lemma {:induction false} BitLenOr(a: nat, b: nat)
    ensures BitLen(BitOr(a, b)) == if BitLen(a) >= BitLen(b) then BitLen(a) else BitLen(b)
    decreases a + b
  {
    if a > 0 && b > 0 {
      BitLenOr(a / 2, b / 2);
      assert BitOr(a, b) / 2 == BitOr(a / 2, b / 2);
    }
  }

  /** A number whose bits are all below those of another: or-ing the two is adding them. */
  lemma {:induction false} BitOrDisjoint(low: nat, high: nat, k: nat)
    requires low < Pow2(k)
    ensures BitOr(low, ShiftLeft(high, k)) == low + ShiftLeft(high, k)
  {
    if k == 0 {
    } else {
      BitOrDisjoint(low / 2, high, k - 1);
      assert ShiftLeft(high, k) / 2 == ShiftLeft(high, k - 1) && ShiftLeft(high, k) % 2 == 0;
    }
  }

  lemma BitOrEven(x: nat, y: nat)
    ensures BitOr(x, 2 * y) == 2 * BitOr(x / 2, y) + x % 2
  {
    assert 2 * y / 2 == y;
  }

  lemma {:induction false} BitOrBound(a: nat, b: nat, n: nat)
    requires a < Pow2(n) && b < Pow2(n)
    ensures BitOr(a, b) < Pow2(n)
  {
    if n == 0 {
    } else {
      BitOrBound(a / 2, b / 2, n - 1);
    }
  }

  lemma {:induction false} BitOrSwap(a: nat, b: nat)
    ensures BitOr(a, b) == BitOr(b, a)
    decreases a + b
  {
    if a == 0 || b == 0 {
    } else {
      BitOrSwap(a / 2, b / 2);
    }
  }

  function BitXor(a: nat, b: nat): nat
    decreases a + b
  {
    if a == 0 then b
    else if b == 0 then a
    else 2 * BitXor(a / 2, b / 2) + (if a % 2 != b % 2 then 1 else 0)
  }

  /** Xor with ones turns every bit over. */
  lemma {:induction false} BitXorOnes(x: nat, n: nat)
    requires x < Pow2(n)
    ensures BitXor(x, Pow2(n) - 1) == Pow2(n) - 1 - x
  {
    if n == 0 {
    } else {
      BitXorOnes(x / 2, n - 1);
    }
  }

  function BitAnd(a: nat, b: nat): nat
    decreases a
  {
    if a == 0 || b == 0 then 0
    else 2 * BitAnd(a / 2, b / 2) + (if a % 2 == 1 && b % 2 == 1 then 1 else 0)
  }

  lemma BitAndOdd(x: nat, d: nat)
    requires d > 0
    ensures BitAnd(x, 2 * d - 1) == 2 * BitAnd(x / 2, d - 1) + x % 2
  {
    assert (2 * d - 1) / 2 == d - 1 && (2 * d - 1) % 2 == 1;
  }

  /** Masking with 2^m - 1 keeps exactly what shifting right by m drops. */
  lemma {:induction false} BitAndMask(x: nat, m: nat)
    ensures BitAnd(x, Pow2(m) - 1) < Pow2(m)
    ensures x == ShiftLeft(ShiftRight(x, m), m) + BitAnd(x, Pow2(m) - 1)
  {
    if m == 0 {
    } else {
      BitAndMask(x / 2, m - 1);
      BitAndOdd(x, Pow2(m - 1));
    }
  }

  lemma ProductOfDouble(x: nat, y: nat)
    ensures x * (2 * y) == 2 * (x * y)
  {
  }

  lemma {:induction false} ShiftLeftIsProduct(x: nat, k: nat)
    ensures ShiftLeft(x, k) == x * Pow2(k)
  {
    if k == 0 {
    } else {
      ShiftLeftIsProduct(x, k - 1);
      ProductOfDouble(x, Pow2(k - 1));
    }
  }

  lemma HalfAndLowest(y: nat, half: nat, lowest: nat)
    requires y == 2 * half + lowest && lowest < 2
    ensures y / 2 == half && y % 2 == lowest
  {
  }

  lemma LowestBitSet(x: nat)
    ensures BitAnd(BitOr(x, Pow2(0)), Pow2(1) - 1) == BitAnd(x, Pow2(0) - 1) + Pow2(0)
  {
    BitAndOdd(BitOr(x, 1), 1);
  }

  /** Setting bit k, when the bits above it are dropped, leaves the bits below it. */
  lemma {:induction false} BitOrTop(x: nat, k: nat)
    ensures BitAnd(BitOr(x, Pow2(k)), Pow2(k + 1) - 1) == BitAnd(x, Pow2(k) - 1) + Pow2(k)
  {
    hide BitOr, BitAnd, Pow2;
    if k == 0 {
      LowestBitSet(x);
    } else {
      var p, y, z := Pow2(k - 1), BitOr(x, Pow2(k)), BitOr(x / 2, Pow2(k - 1));
      Pow2Next(k - 1);
      Pow2Next(k);
      BitOrTop(x / 2, k - 1);
      BitOrEven(x, p);
      HalfAndLowest(y, z, x % 2);
      BitAndOdd(y, 2 * p);
      BitAndOdd(x, p);
    }
  }

  lemma SmallPowers()
    ensures Pow2(7) == 0x80 && Pow2(8) == 0x100
  {
    assert Pow2(4) == 16;
  }

  lemma MaskIsRemainder(x: nat)
    ensures BitAnd(x, 0x7F) == x % 0x80
  {
    SmallPowers();
    hide *;
    var q := ShiftRight(x, 7);
    BitAndMask(x, 7);
    ShiftLeftIsProduct(q, 7);
    assert ShiftLeft(q, 7) == q * 0x80;
  }

  lemma Pow2By16(n: nat)
    ensures Pow2(n + 16) == 0x1_0000 * Pow2(n)
  {
    assert Pow2(n + 4) == 16 * Pow2(n) by { assert Pow2(n + 2) == 4 * Pow2(n); }
    assert Pow2(n + 8) == 16 * Pow2(n + 4) by { assert Pow2(n + 6) == 4 * Pow2(n + 4); }
    assert Pow2(n + 12) == 16 * Pow2(n + 8) by { assert Pow2(n + 10) == 4 * Pow2(n + 8); }
    assert Pow2(n + 16) == 16 * Pow2(n + 12) by { assert Pow2(n + 14) == 4 * Pow2(n + 12); }
  }

  lemma Pow2Facts()
    ensures Pow2(62) == 0x4000_0000_0000_0000
    ensures Pow2(63) == 0x8000_0000_0000_0000
    ensures Pow2(64) == 0x1_0000_0000_0000_0000
  {
    hide Pow2;
    Pow2Zero();
    Pow2By16(0); Pow2By16(16); Pow2By16(32); Pow2By16(48);
    Pow2Next(62); Pow2Next(63);
  }
}
