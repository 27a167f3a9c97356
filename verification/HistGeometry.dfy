/** The bucket geometry of an HDR histogram: which slot of the counts array a value
    falls in, and which values a slot stands for. */
module HistGeometry {
  import opened Bits
  import opened Common

  /** One step of the search: either the high part is empty or it carries the top bit. */
  lemma Narrowed(x: nat, k: nat)
    ensures ShiftRight(x, k) == 0 ==> BitLen(x) <= k
    ensures ShiftRight(x, k) != 0 ==> BitLen(x) == k + BitLen(ShiftRight(x, k))
  {
    if ShiftRight(x, k) != 0 {
      BitLenShift(x, k);
    } else {
      ShiftRightBounds(x, k);
      BitLenAtMost(x, k);
    }
  }

  /** The remaining steps of the search once x is known to have at most 2 * step bits. */
  function LeadingZerosFrom(n: int, x: nat, step: nat): (r: int)
    requires step in {1, 2, 4, 8, 16} && BitLen(x) <= 2 * step
    ensures r == n - BitLen(x)
    decreases step, x
  {
    Narrowed(x, step);
    var y := ShiftRight(x, step);
    var (n, x) := if y != 0 then (n - step, y) else (n, x);
    if step == 1 then n - x else LeadingZerosFrom(n, x, step / 2)
  }

  /** Halving search for the highest set bit. */
  function LeadingZeros(x: nat): (n: int)
    requires x < UINT64_LIMIT
    ensures n == 64 - BitLen(x)
  {
    Narrowed(x, 32); BitLenAtMost(x, 64); Pow2Facts();
    var y := ShiftRight(x, 32);
    var (n, x) := if y != 0 then (32, y) else (64, x);
    LeadingZerosFrom(n, x, 16)
  }

  /** The numbers Init derives from a configuration; the sub-bucket counts and masks
      follow from the two magnitudes. Fits says that they stay clear of the sign bit. */
  datatype Geometry = Geometry(unitMag: nat, subHalfCountMag: nat)
  {
    ghost predicate Fits() {
      unitMag + subHalfCountMag + 1 <= 62
    }

    function SubHalfCount(): nat { Pow2(subHalfCountMag) }

    function SubCount(): nat { Pow2(subHalfCountMag + 1) }

    function SubMask(): nat { ShiftLeft(SubCount() - 1, unitMag) }

    function LeadZeroCountBase(): int { 64 - unitMag - subHalfCountMag - 1 }

    /** The bits v has beyond those of bucket 0; BucketIndexByLeadingZeros shows that
        the bit operations of the code compute this. */
    function BucketIndex(v: Int64): nat {
      var len, low := BitLen(Unsigned(v)), unitMag + subHalfCountMag + 1;
      if len > low then len - low else 0
    }

    function SubBucketIndex(v: Int64, bi: nat): nat {
      ShiftRight(Unsigned(v), bi + unitMag)
    }

    function CountsIndex(v: Int64): int {
      var bi := BucketIndex(v);
      var sbi := SubBucketIndex(v, bi);
      var base := ShiftLeft(bi + 1, subHalfCountMag);
      var offset := sbi - SubHalfCount();
      base + offset
    }

    /** Bucket and sub-bucket of slot i. */
    function Slot(i: nat): (nat, nat) {
      var bi := ShiftRight(i, subHalfCountMag) - 1;
      var sbi := BitAnd(i, SubHalfCount() - 1) + SubHalfCount();
      if bi < 0 then (0, sbi - SubHalfCount()) else (bi, sbi)
    }

    function ValueFor(i: nat): nat {
      var (bi, sbi) := Slot(i);
      ShiftLeft(sbi, bi + unitMag)
    }

    function LowestEquiv(v: Int64): nat {
      var bi := BucketIndex(v);
      ShiftLeft(SubBucketIndex(v, bi), bi + unitMag)
    }

    function SizeOfEquivalentValueRange(v: Int64): nat {
      ShiftLeft(1, unitMag + BucketIndex(v))
    }

    function HighestEquiv(v: Int64): int {
      LowestEquiv(v) + SizeOfEquivalentValueRange(v) - 1
    }
  }

  lemma SubMaskBounds(g: Geometry)
    ensures Pow2(g.unitMag + g.subHalfCountMag) <= g.SubMask() < Pow2(g.unitMag + g.subHalfCountMag + 1)
  {
    hide ShiftLeft, ShiftRight, Pow2, BitLen, BitAnd, BitOr;
    var m, u := g.subHalfCountMag, g.unitMag;
    Pow2Next(m);
    ShiftLeftPow2(m, u);
    ShiftLeftPow2(m + 1, u);
    ShiftLeftOrder(g.SubCount() - 1, Pow2(m + 1), u);
    ShiftLeftOrder(g.SubCount() - 1, Pow2(m), u);
  }

  /** Counting the leading zeros of v, or-ed with the mask of bucket 0, gives the bucket. */
  lemma BucketIndexByLeadingZeros(g: Geometry, v: Int64)
    requires g.Fits()
    ensures BitOr(Unsigned(v), g.SubMask()) < UINT64_LIMIT
    ensures g.BucketIndex(v) == g.LeadZeroCountBase() - LeadingZeros(BitOr(Unsigned(v), g.SubMask()))
  {
    hide ShiftLeft, ShiftRight, Pow2, BitLen, BitAnd, BitOr;
    var low, x := g.unitMag + g.subHalfCountMag + 1, Unsigned(v);
    SubMaskBounds(g);
    BitLenIs(g.SubMask(), low - 1);
    BitLenOr(x, g.SubMask());
    Pow2Facts();
    BitLenAtMost(x, 64);
    BitLenAtMost(BitOr(x, g.SubMask()), 64);
  }

  /** Bucket bi holds sub-buckets below 2^(m+1), and from 2^m on unless bi is 0. */
  ghost predicate SlotInRange(g: Geometry, bi: nat, sbi: nat) {
    sbi < Pow2(g.subHalfCountMag + 1) && (bi > 0 ==> Pow2(g.subHalfCountMag) <= sbi)
  }

  /** Slots are numbered without gaps: bucket bi adds 2^m slots. */
  function SlotNumber(g: Geometry, bi: nat, sbi: nat): nat {
    ShiftLeft(bi, g.subHalfCountMag) + sbi
  }

  /** Dropping k bits leaves at most n bits exactly when there were at most k + n. */
  lemma QuotientBits(x: nat, k: nat, n: nat)
    ensures ShiftRight(x, k) < Pow2(n) <==> BitLen(x) <= k + n
  {
    hide ShiftLeft, ShiftRight, Pow2, BitLen, BitAnd, BitOr;
    ShiftRightBounds(x, k);
    BitLenAtMost(x, k + n);
    ShiftLeftPow2(n, k);
    ShiftLeftOrder(ShiftRight(x, k), Pow2(n), k);
    ShiftLeftOrder(Pow2(n), ShiftRight(x, k) + 1, k);
  }

  lemma SlotOfValue(g: Geometry, v: Int64)
    requires g.Fits()
    ensures var bi := g.BucketIndex(v); var sbi := g.SubBucketIndex(v, bi);
      && SlotInRange(g, bi, sbi)
      && g.CountsIndex(v) == SlotNumber(g, bi, sbi)
      && ShiftLeft(sbi, bi + g.unitMag) <= Unsigned(v) < ShiftLeft(sbi + 1, bi + g.unitMag)
  {
    hide ShiftLeft, ShiftRight, Pow2;
    var x, bi, m := Unsigned(v), g.BucketIndex(v), g.subHalfCountMag;
    ShiftRightBounds(x, bi + g.unitMag);
    ShiftLeftAdd(bi, 1, m);
    ShiftLeftOne(m);
    QuotientBits(x, bi + g.unitMag, m);
    QuotientBits(x, bi + g.unitMag, m + 1);
  }

  lemma SlotOfNumber(g: Geometry, i: nat)
    ensures var (bi, sbi) := g.Slot(i); SlotInRange(g, bi, sbi) && SlotNumber(g, bi, sbi) == i
  {
    hide ShiftLeft, ShiftRight, Pow2, BitLen, BitAnd, BitOr;
    var m := g.subHalfCountMag;
    var q := ShiftRight(i, m);
    BitAndMask(i, m);
    ShiftLeftOne(m);
    if q > 0 { ShiftLeftAdd(q - 1, 1, m); }
    ShiftLeftOrder(0, q, m);
    ShiftLeftZero(m);
    Pow2Next(m);
  }

  lemma SlotBelow(g: Geometry, b1: nat, s1: nat, b2: nat, s2: nat)
    requires SlotInRange(g, b1, s1) && SlotInRange(g, b2, s2) && b1 < b2
    ensures SlotNumber(g, b1, s1) < SlotNumber(g, b2, s2)
  {
    hide ShiftLeft, ShiftRight, Pow2, BitLen, BitAnd, BitOr;
    var m := g.subHalfCountMag;
    ShiftLeftAdd(b1, 1, m);
    ShiftLeftOne(m);
    ShiftLeftOrder(b2, b1 + 1, m);
    Pow2Next(m);
  }

  lemma SlotUnique(g: Geometry, b1: nat, s1: nat, b2: nat, s2: nat)
    requires SlotInRange(g, b1, s1) && SlotInRange(g, b2, s2)
    requires SlotNumber(g, b1, s1) == SlotNumber(g, b2, s2)
    ensures b1 == b2 && s1 == s2
  {
    if b1 < b2 {
      SlotBelow(g, b1, s1, b2, s2);
    } else if b2 < b1 {
      SlotBelow(g, b2, s2, b1, s1);
    }
  }

  /** The value of a slot falls in that slot: valueFor and countsIndex are inverse on slots. */
  lemma IndexOfValueFor(g: Geometry, i: nat)
    requires g.Fits() && g.ValueFor(i) < INT64_LIMIT
    ensures g.CountsIndex(g.ValueFor(i)) == i
    ensures g.BucketIndex(g.ValueFor(i)) == g.Slot(i).0
  {
    hide ShiftLeft, ShiftRight, Pow2, BitLen;
    var (bi, sbi) := g.Slot(i);
    SlotOfNumber(g, i);
    var v, k, m := g.ValueFor(i), bi + g.unitMag, g.subHalfCountMag;
    ShiftLeftPow2(m + 1, k);
    ShiftLeftOrder(sbi, Pow2(m + 1), k);
    BitLenAtMost(v, k + m + 1);
    if bi > 0 {
      ShiftLeftPow2(m, k);
      ShiftLeftOrder(sbi, Pow2(m), k);
      BitLenIs(v, k + m);
    }
    ShiftLeftOrder(sbi, sbi + 1, k);
    ShiftRightIs(v, k, sbi);
    SlotOfValue(g, v);
  }

  /** Every non-negative value lies between the ends of its slot, whose low end is its
      canonical value. */
  lemma ValueForIndexOf(g: Geometry, v: Int64)
    requires g.Fits() && v >= 0
    ensures g.CountsIndex(v) >= 0
    ensures g.ValueFor(g.CountsIndex(v)) == g.LowestEquiv(v) <= v <= g.HighestEquiv(v)
    ensures g.Slot(g.CountsIndex(v)).0 == g.BucketIndex(v)
  {
    hide ShiftLeft, ShiftRight, Pow2, BitLen;
    var bi := g.BucketIndex(v);
    var sbi := g.SubBucketIndex(v, bi);
    SlotOfValue(g, v);
    var i := g.CountsIndex(v);
    SlotOfNumber(g, i);
    SlotUnique(g, bi, sbi, g.Slot(i).0, g.Slot(i).1);
    ShiftLeftAdd(sbi, 1, bi + g.unitMag);
  }

  function SlotWidth(g: Geometry, i: nat): nat {
    ShiftLeft(1, g.unitMag + g.Slot(i).0)
  }

  /** Slot ranges tile the numbers from 0 on: each begins where the one before it ends. */
  lemma SlotsTile(g: Geometry, i: nat)
    ensures g.ValueFor(0) == 0
    ensures g.ValueFor(i + 1) == g.ValueFor(i) + SlotWidth(g, i)
    ensures SlotWidth(g, i) >= 1
  {
    hide ShiftLeft, ShiftRight, Pow2, BitLen, BitAnd, BitOr;
    var m := g.subHalfCountMag;
    ShiftLeftZero(m);
    ShiftLeftZero(g.unitMag);
    SlotOfNumber(g, 0);
    SlotUnique(g, g.Slot(0).0, g.Slot(0).1, 0, 0);
    var (bi, sbi) := g.Slot(i);
    SlotOfNumber(g, i);
    SlotOfNumber(g, i + 1);
    var (b', s') := g.Slot(i + 1);
    var k := bi + g.unitMag;
    ShiftLeftAdd(sbi, 1, k);
    ShiftLeftGrows(1, k);
    Pow2Next(m);
    if sbi + 1 < Pow2(m + 1) {
      SlotUnique(g, bi, sbi + 1, b', s');
    } else {
      ShiftLeftAdd(bi, 1, m);
      ShiftLeftOne(m);
      SlotUnique(g, bi + 1, Pow2(m), b', s');
      ShiftLeftPow2(m, k + 1);
      ShiftLeftPow2(m + 1, k);
    }
  }

  lemma {:induction false} ValueForIncreasing(g: Geometry, i: nat, j: nat)
    requires i < j
    ensures g.ValueFor(i) + SlotWidth(g, i) <= g.ValueFor(j)
    ensures g.ValueFor(i) < g.ValueFor(j)
  {
    SlotsTile(g, i);
    SlotsTile(g, j - 1);
    if i < j - 1 { ValueForIncreasing(g, i, j - 1); }
  }

  lemma SlotEnds(g: Geometry, v: Int64)
    requires g.Fits() && v >= 0
    ensures var i := g.CountsIndex(v);
      i >= 0 && g.ValueFor(i) <= v < g.ValueFor(i + 1)
    ensures var i := g.CountsIndex(v);
      i >= 0 && g.LowestEquiv(v) == g.ValueFor(i) && g.HighestEquiv(v) == g.ValueFor(i + 1) - 1
  {
    hide ShiftLeft, ShiftRight, Pow2, BitLen, BitAnd, BitOr;
    ValueForIndexOf(g, v);
    SlotsTile(g, g.CountsIndex(v));
  }

  lemma SlotOrder(g: Geometry, v: int, j: nat, i: nat)
    requires g.ValueFor(j) <= v < g.ValueFor(j + 1)
    ensures j < i <==> v < g.ValueFor(i)
  {
    if j + 1 < i { ValueForIncreasing(g, j + 1, i); }
    if i < j { ValueForIncreasing(g, i, j); }
  }

  lemma IndexBelowIff(g: Geometry, v: Int64, i: nat)
    requires g.Fits() && v >= 0
    ensures g.CountsIndex(v) < i <==> v < g.ValueFor(i)
  {
    SlotEnds(g, v);
    SlotOrder(g, v, g.CountsIndex(v), i);
  }

  /** A value falls in slot i exactly when it lies in the range of slot i. */
  lemma IndexIff(g: Geometry, v: Int64, i: nat)
    requires g.Fits() && v >= 0
    ensures g.CountsIndex(v) == i <==> g.ValueFor(i) <= v < g.ValueFor(i + 1)
  {
    IndexBelowIff(g, v, i);
    IndexBelowIff(g, v, i + 1);
  }

  lemma IndexMonotone(g: Geometry, v: Int64, w: Int64)
    requires g.Fits() && 0 <= v <= w
    ensures g.CountsIndex(v) <= g.CountsIndex(w)
  {
    hide *;
    SlotEnds(g, w);
    IndexBelowIff(g, v, g.CountsIndex(w) + 1);
  }

  /** Two values share a slot exactly when they share its low end, and exactly when one
      lies in the range reported for the other. */
  lemma EquivalentIff(g: Geometry, v: Int64, w: Int64)
    requires g.Fits() && v >= 0 && w >= 0
    ensures g.CountsIndex(v) == g.CountsIndex(w) <==> g.LowestEquiv(v) == g.LowestEquiv(w)
    ensures g.CountsIndex(v) == g.CountsIndex(w) <==> g.LowestEquiv(v) <= w <= g.HighestEquiv(v)
  {
    hide ShiftLeft, ShiftRight, Pow2, BitLen, BitAnd, BitOr;
    SlotEnds(g, v);
    SlotEnds(g, w);
    var i, j := g.CountsIndex(v), g.CountsIndex(w);
    IndexIff(g, w, i);
    if i < j { ValueForIncreasing(g, i, j); }
    if j < i { ValueForIncreasing(g, j, i); }
  }

  /** 2^n is a multiple of 2^k, so a range of width 2^k that begins below 2^n ends by 2^n. */
  lemma RangeEndsBy(q: nat, k: nat, n: nat)
    requires k <= n && ShiftLeft(q, k) < Pow2(n)
    ensures ShiftLeft(q + 1, k) <= Pow2(n)
  {
    hide ShiftLeft, ShiftRight, Pow2, BitLen, BitAnd, BitOr;
    ShiftLeftPow2(n - k, k);
    ShiftLeftOrder(q, Pow2(n - k), k);
    ShiftLeftOrder(Pow2(n - k), q + 1, k);
  }

  lemma TopOfSlotFits(g: Geometry, v: Int64)
    requires g.Fits() && v >= 0
    ensures g.HighestEquiv(v) < INT64_LIMIT
  {
    hide ShiftLeft, ShiftRight, Pow2, BitLen, BitAnd, BitOr;
    var bi := g.BucketIndex(v);
    var sbi, k := g.SubBucketIndex(v, bi), bi + g.unitMag;
    SlotOfValue(g, v);
    Pow2Facts();
    BitLenAtMost(v, 63);
    RangeEndsBy(sbi, k, 63);
    ShiftLeftAdd(sbi, 1, k);
  }

  /** The top of a slot never leaves the int64 range, and lies in the same slot. */
  lemma HighestEquivFits(g: Geometry, v: Int64)
    requires g.Fits() && v >= 0
    ensures 0 <= g.HighestEquiv(v) < INT64_LIMIT
    ensures g.CountsIndex(g.HighestEquiv(v)) == g.CountsIndex(v)
  {
    hide ShiftLeft, ShiftRight, Pow2, BitLen, BitAnd, BitOr;
    ValueForIndexOf(g, v);
    TopOfSlotFits(g, v);
    EquivalentIff(g, v, g.HighestEquiv(v));
  }

  function Pow10(n: nat): nat {
    if n == 0 then 1 else 10 * Pow10(n - 1)
  }

  lemma SlotScale(g: Geometry, v: Int64) returns (k: nat, q: nat)
    requires g.Fits() && v >= 0
    ensures g.SizeOfEquivalentValueRange(v) == Pow2(k)
    ensures k == g.unitMag || Pow2(g.subHalfCountMag) <= q
    ensures ShiftLeft(q, k) <= v
  {
    hide ShiftLeft, ShiftRight, Pow2, BitLen, BitAnd, BitOr;
    var bi := g.BucketIndex(v);
    k, q := g.unitMag + bi, g.SubBucketIndex(v, bi);
    SlotOfValue(g, v);
    ShiftLeftOne(k);
    assert bi + g.unitMag == k;
  }

  lemma WidthFraction(width: nat, p: nat, q: nat, k: nat, v: nat)
    requires width == Pow2(k) && p <= q && ShiftLeft(q, k) <= v
    ensures width * p <= v
  {
    hide ShiftLeft, ShiftRight, Pow2, BitLen, BitAnd, BitOr;
    ShiftLeftOrder(q, p, k);
    ShiftLeftIsProduct(p, k);
  }

  /** A slot is as wide as the unit, or no wider than the required fraction of its values. */
  lemma SlotWidthBound(g: Geometry, sigFigs: nat, v: Int64)
    requires g.Fits() && v >= 0 && Pow10(sigFigs) <= Pow2(g.subHalfCountMag)
    ensures var width := g.SizeOfEquivalentValueRange(v);
      width == Pow2(g.unitMag) || width * Pow10(sigFigs) <= v
  {
    var width, p := g.SizeOfEquivalentValueRange(v), Pow10(sigFigs);
    var k, q := SlotScale(g, v);
    if width != Pow2(g.unitMag) {
      WidthFraction(width, p, q, k, v);
    }
  }
}
