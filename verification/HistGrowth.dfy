/** Configurations of histograms, how many buckets a value needs, and what growing by that many
    achieves. */
module HistGrowth {
  import opened Bits
  import opened Common
  import opened HistGeometry
  import opened HistCounts

  datatype Config = Config(lowestDiscernible: Int64, highestTrackable: Int64, sigFigs: int, autoResize: bool)
  {
    predicate Accepted() {
      && lowestDiscernible >= 1
      && 0 <= sigFigs <= 5
      && (autoResize || highestTrackable >= 2 * lowestDiscernible)
      && GeometryOf(this).unitMag + GeometryOf(this).subHalfCountMag + 1 <= 62
    }

    /** The configuration Init stores: the trackable range is widened to its minimum. */
    function Normalised(): (c: Config)
      requires Accepted()
    {
      Pow2Facts();
      BitLenAtMost(lowestDiscernible, 62);
      if highestTrackable < 2 * lowestDiscernible then this.(highestTrackable := 2 * lowestDiscernible) else this
    }
  }

  /** The magnitudes Init derives, with exact integer logarithms. */
  function GeometryOf(cfg: Config): Geometry
    requires cfg.lowestDiscernible >= 1 && 0 <= cfg.sigFigs
  {
    Pow10Positive(cfg.sigFigs);
    var unitMag := BitLen(cfg.lowestDiscernible) - 1;
    var largestSingleUnitResolutionValue := 2 * Pow10(cfg.sigFigs);
    var subCountMag := BitLen(largestSingleUnitResolutionValue - 1);
    Geometry(unitMag, if subCountMag > 1 then subCountMag - 1 else 0)
  }

  /** The sub-buckets of a bucket are fine enough for the promised significant figures. */
  lemma ResolutionSuffices(cfg: Config)
    requires cfg.lowestDiscernible >= 1 && 0 <= cfg.sigFigs
    ensures Pow10(cfg.sigFigs) <= Pow2(GeometryOf(cfg).subHalfCountMag)
  {
    Pow10Positive(cfg.sigFigs);
    var x := 2 * Pow10(cfg.sigFigs) - 1;
    BitLenAtMost(x, BitLen(x));
  }

  /** The unit is the greatest power of two up to the least discernible value, and half the
      sub-buckets are the least power of two that makes twice as many reach the resolution. */
  lemma GeometryIs(cfg: Config)
    requires cfg.lowestDiscernible >= 1 && 0 <= cfg.sigFigs
    ensures var g := GeometryOf(cfg);
      && Pow2(g.unitMag) <= cfg.lowestDiscernible < Pow2(g.unitMag + 1)
      && 2 * Pow10(cfg.sigFigs) <= Pow2(g.subHalfCountMag + 1)
      && (g.subHalfCountMag > 0 ==> Pow2(g.subHalfCountMag) < 2 * Pow10(cfg.sigFigs))
  {
    var low, x := cfg.lowestDiscernible, 2 * Pow10(cfg.sigFigs) - 1;
    Pow10Positive(cfg.sigFigs);
    BitLenAtMost(low, BitLen(low));
    BitLenAtMost(low, BitLen(low) - 1);
    BitLenAtMost(x, BitLen(x));
    BitLenAtMost(x, BitLen(x) - 1);
    Pow2Zero();
    Pow2Next(0);
  }

  /** The least number of buckets, at least one, whose ranges together reach up to v. */
  function BucketsNeeded(g: Geometry, v: Int64): (n: nat)
    ensures n >= 1
  {
    var low := g.unitMag + g.subHalfCountMag;
    var len := if v <= 1 then 0 else BitLen(v - 1);
    if len <= low + 1 then 1 else len - low
  }

  /** n buckets reach up to v exactly when v is at most 2^(unitMag + subHalfCountMag + n). */
  lemma BucketsNeededIff(g: Geometry, v: Int64, n: nat)
    requires n >= 1
    ensures BucketsNeeded(g, v) <= n <==> v <= Pow2(g.unitMag + g.subHalfCountMag + n)
  {
    if v > 1 { BitLenAtMost(v - 1, g.unitMag + g.subHalfCountMag + n); }
  }

  lemma BucketsNeededBound(g: Geometry, v: Int64)
    requires g.Fits()
    ensures g.unitMag + g.subHalfCountMag + BucketsNeeded(g, v) <= 63
  {
    Pow2Facts();
    if v > 1 { BitLenAtMost(v - 1, 63); }
  }

  method NumBucketsToCoverVal(v: Int64, g: Geometry) returns (req: nat)
    requires g.Fits()
    ensures req == BucketsNeeded(g, v)
  {
    hide Pow2, ShiftLeft, BitLen, BucketsNeeded;
    var smallestUntrackable := ShiftLeft(g.SubCount(), g.unitMag);
    ghost var low := g.unitMag + g.subHalfCountMag;
    ShiftLeftPow2(g.subHalfCountMag + 1, g.unitMag);
    Pow2Facts();
    Pow2Order(low + 1, 63);
    req := 1;
    while smallestUntrackable < v
      invariant req >= 1 && smallestUntrackable == Pow2(low + req) && low + req <= 62
      invariant req == 1 || v > Pow2(low + req - 1)
      decreases 63 - (low + req)
    {
      if smallestUntrackable > (INT64_LIMIT - 1) / 2 {
        Pow2Order(low + req, 62);
        BucketsNeededIff(g, v, req);
        BucketsNeededBound(g, v);
        return req + 1;
      }
      Pow2Order(62, low + req);
      Pow2Next(low + req);
      smallestUntrackable := 2 * smallestUntrackable;
      req := req + 1;
    }
    BucketsNeededIff(g, v, req);
    if req > 1 { BucketsNeededIff(g, v, req - 1); }
  }

  lemma Pow2Fits(e: nat)
    requires e < 63
    ensures Pow2(e) < INT64_LIMIT
  {
    Pow2Facts();
    Pow2Order(e, 63);
  }

  /** The word of 2^e in an int64. */
  function PowerWord(e: nat): Int64 {
    if e < 63 then Pow2Fits(e); Pow2(e) else if e == 63 then -INT64_LIMIT else 0
  }

  /** Doubling the word of a power of two, with wrap-around. */
  lemma PowerWordDoubles(e: nat)
    ensures PowerWord(e + 1) == (if 2 * PowerWord(e) == INT64_LIMIT then -INT64_LIMIT
                                 else if PowerWord(e) == -INT64_LIMIT then 0 else 2 * PowerWord(e))
  {
    Pow2Facts();
    Pow2Next(e);
    if e < 62 { Pow2Order(e, 62); }
  }

  /** When the sub-buckets reach the sign bit, Init never returns: after any number of doublings
      the loop that counts buckets is still below a positive value and below the overflow exit. */
  lemma InitNeverReturns(g: Geometry, v: Int64, doublings: nat)
    requires !g.Fits() && v > 0
    ensures var smallest := PowerWord(g.unitMag + g.subHalfCountMag + 1 + doublings);
      smallest < v && smallest <= (INT64_LIMIT - 1) / 2
  {
  }

  /** The number of slots of bucketCount buckets: (bucketCount + 1) half buckets. */
  function CountsLen(g: Geometry, bucketCount: nat): nat {
    ShiftLeft(bucketCount + 1, g.subHalfCountMag)
  }

  lemma SlotOfLen(g: Geometry, n: nat)
    ensures g.Slot(CountsLen(g, n)) == (n, Pow2(g.subHalfCountMag))
  {
    hide ShiftLeft, ShiftRight, Pow2, BitAnd, BitLen;
    var m, len := g.subHalfCountMag, CountsLen(g, n);
    ShiftLeftAdd(n, 1, m);
    ShiftLeftOne(m);
    Pow2Next(m);
    SlotOfNumber(g, len);
    SlotUnique(g, g.Slot(len).0, g.Slot(len).1, n, Pow2(m));
  }

  /** The slots of n buckets stand for exactly the values below a power of two. */
  lemma CountsLenCovers(g: Geometry, n: nat)
    ensures CountsLen(g, n) >= 1
    ensures g.ValueFor(CountsLen(g, n)) == Pow2(g.unitMag + g.subHalfCountMag + n)
  {
    hide ShiftLeft, ShiftRight, Pow2, BitAnd, BitLen;
    var m := g.subHalfCountMag;
    ShiftLeftAdd(n, 1, m);
    ShiftLeftOne(m);
    SlotOfLen(g, n);
    ShiftLeftPow2(m, n + g.unitMag);
  }

  lemma CoveredIff(g: Geometry, n: nat, v: Int64)
    requires g.Fits() && v >= 0
    ensures 0 <= g.CountsIndex(v)
    ensures g.CountsIndex(v) < CountsLen(g, n) <==> v < Pow2(g.unitMag + g.subHalfCountMag + n)
  {
    hide ShiftLeft, ShiftRight, Pow2, BitAnd, BitLen;
    CountsLenCovers(g, n);
    SlotEnds(g, v);
    IndexBelowIff(g, v, CountsLen(g, n));
  }

  lemma CountsLenSized(g: Geometry, n: nat)
    requires g.Fits() && g.unitMag + g.subHalfCountMag + n <= 63
    ensures Sized(g, CountsLen(g, n))
  {
    hide ShiftLeft, ShiftRight, Pow2, BitAnd, BitLen;
    CountsLenCovers(g, n);
    Pow2Facts();
    Pow2Order(63, g.unitMag + g.subHalfCountMag + n);
  }

  /** A negative value always falls past the end of the counts. */
  lemma NegativeIndex(g: Geometry, n: nat, v: Int64)
    requires g.Fits() && g.unitMag + g.subHalfCountMag + n <= 63 && v < 0
    ensures g.CountsIndex(v) >= CountsLen(g, n)
  {
    hide ShiftLeft, ShiftRight, Pow2, BitAnd, BitLen;
    Pow2Facts();
    BitLenAtMost(Unsigned(v), 63);
    BitLenAtMost(Unsigned(v), 64);
    SlotOfValue(g, v);
    var m, bi := g.subHalfCountMag, g.BucketIndex(v);
    ShiftLeftAdd(bi, 1, m);
    ShiftLeftOne(m);
    ShiftLeftOrder(bi + 1, n + 1, m);
  }

  /** What a resized histogram stores as its new trackable range needs the same buckets. */
  lemma HighestOfBuckets(g: Geometry, n: nat)
    requires g.Fits() && n >= 1 && g.unitMag + g.subHalfCountMag + n <= 63
    ensures CountsLen(g, n) >= 1 && g.ValueFor(CountsLen(g, n) - 1) < INT64_LIMIT
    ensures var top := g.HighestEquiv(g.ValueFor(CountsLen(g, n) - 1));
      && top == Pow2(g.unitMag + g.subHalfCountMag + n) - 1 && 0 <= top < INT64_LIMIT
      && BucketsNeeded(g, top) == n
  {
    hide ShiftLeft, ShiftRight, Pow2, BitAnd, BitLen, BucketsNeeded;
    var len, low := CountsLen(g, n), g.unitMag + g.subHalfCountMag;
    CountsLenCovers(g, n);
    CountsLenSized(g, n);
    SizedSlot(g, len, len - 1);
    TopOfSlot(g, len - 1);
    var top := g.HighestEquiv(g.ValueFor(len - 1));
    BucketsNeededIff(g, top, n);
    if n > 1 {
      BucketsNeededIff(g, top, n - 1);
      Pow2Zero();
      Pow2Order(0, low + n - 1);
      Pow2Next(low + n - 1);
    }
  }

  // ---------------------------------------------------------------- what can be recorded

  predicate IsPow2(v: int) {
    v > 0 && v == Pow2(BitLen(v) - 1)
  }

  lemma IsPow2Iff(v: int, n: nat)
    ensures v == Pow2(n) ==> IsPow2(v)
  {
    if v == Pow2(n) { BitLenIs(v, n); }
  }

  /** A power of two above half of 2^n and at most 2^n is 2^n. */
  lemma PowerBetween(k: nat, n: nat, v: int)
    requires v == Pow2(k) <= Pow2(n) && n > 0
    ensures Pow2(n - 1) < v ==> v == Pow2(n)
  {
    Pow2Order(n - 1, k);
    Pow2Order(n, k);
  }

  /** The values RecordN accepts. Its two comparisons leave out the values of the first slot past
      the end (index equal to the length) and, beyond them, powers of two. */
  predicate Recordable(g: Geometry, len: nat, autoResize: bool, v: Int64)
  {
    && v >= 0
    && (g.CountsIndex(v) < len || (autoResize && g.CountsIndex(v) > len && !IsPow2(v)))
  }

  lemma NeededExactly(g: Geometry, n: nat, v: Int64)
    requires n >= 1 && v > Pow2(g.unitMag + g.subHalfCountMag + n)
    ensures var n' := BucketsNeeded(g, v); n' > n && (v < Pow2(g.unitMag + g.subHalfCountMag + n') <==> !IsPow2(v))
  {
    var low, n' := g.unitMag + g.subHalfCountMag, BucketsNeeded(g, v);
    BucketsNeededIff(g, v, n);
    BucketsNeededIff(g, v, n');
    BucketsNeededIff(g, v, n' - 1);
    IsPow2Iff(v, low + n');
    if IsPow2(v) { PowerBetween(BitLen(v) - 1, low + n', v); }
  }

  /** Buckets for a value at the end or past it end just at it when it is a power of two. */
  lemma NeededOrEqual(g: Geometry, n: nat, v: Int64)
    requires n >= 1 && v >= Pow2(g.unitMag + g.subHalfCountMag + n)
    ensures v == Pow2(g.unitMag + g.subHalfCountMag + BucketsNeeded(g, v)) <==> IsPow2(v)
  {
    hide Pow2, IsPow2, BucketsNeeded;
    var low, n' := g.unitMag + g.subHalfCountMag, BucketsNeeded(g, v);
    BucketsNeededIff(g, v, n');
    if v == Pow2(low + n) {
      BucketsNeededIff(g, v, n);
      if n > 1 { BucketsNeededIff(g, v, n - 1); Pow2Order(low + n - 1, low + n); }
      IsPow2Iff(v, low + n);
    } else {
      NeededExactly(g, n, v);
    }
  }

  /** Growing for a value past the end covers it unless it is a power of two. */
  lemma GrowthCoversIff(g: Geometry, n: nat, v: Int64)
    requires g.Fits() && n >= 1 && v >= 0 && g.CountsIndex(v) > CountsLen(g, n)
    ensures var n' := BucketsNeeded(g, v);
      && CountsLen(g, n) <= CountsLen(g, n')
      && (g.CountsIndex(v) < CountsLen(g, n') <==> !IsPow2(v))
  {
    var len := CountsLen(g, n);
    CountsLenCovers(g, n);
    SlotsTile(g, len);
    IndexBelowIff(g, v, len + 1);
    NeededExactly(g, n, v);
    var n' := BucketsNeeded(g, v);
    ShiftLeftOrder(n' + 1, n + 1, g.subHalfCountMag);
    CoveredIff(g, n', v);
  }

  /** What growing achieves: of the values whose slots are further past the end than the first one,
      all become recordable except powers of two, which are the first beyond the grown range. */
  lemma RecordableIff(g: Geometry, n: nat, autoResize: bool, v: Int64)
    requires g.Fits() && n >= 1 && g.unitMag + g.subHalfCountMag + n <= 63
    ensures var len := CountsLen(g, n); var n' := BucketsNeeded(g, v);
      var newLen := if g.CountsIndex(v) > len && autoResize then CountsLen(g, n') else len;
      && (Recordable(g, len, autoResize, v) <==> 0 <= g.CountsIndex(v) < newLen)
      && (v >= 0 && g.CountsIndex(v) > len ==> len <= CountsLen(g, n'))
  {
    BucketsNeededBound(g, v);
    if v < 0 {
      NegativeIndex(g, n, v);
      NegativeIndex(g, BucketsNeeded(g, v), v);
    } else {
      CoveredIff(g, n, v);
      if g.CountsIndex(v) > CountsLen(g, n) { GrowthCoversIff(g, n, v); }
    }
  }

  /** Growing does not always help: the first value past the end is always refused. */
  lemma FirstUntrackableRefused(g: Geometry, n: nat)
    requires g.Fits() && n >= 1 && g.unitMag + g.subHalfCountMag + n <= 62
    ensures var v := Pow2(g.unitMag + g.subHalfCountMag + n);
      v < INT64_LIMIT && g.CountsIndex(v) == CountsLen(g, n) && !Recordable(g, CountsLen(g, n), true, v)
  {
    hide ShiftLeft, ShiftRight, Pow2, BitAnd, BitLen;
    var len := CountsLen(g, n);
    Pow2Facts();
    Pow2Order(g.unitMag + g.subHalfCountMag + n, 63);
    CountsLenCovers(g, n);
    SlotsTile(g, len);
    IndexIff(g, g.ValueFor(len), len);
  }

  /** So is every other value of that slot. */
  lemma FirstSlotPastEndRefused(g: Geometry, n: nat, v: Int64)
    requires g.Fits() && v >= 0
    ensures g.CountsIndex(v) == CountsLen(g, n) <==>
      0 <= v - Pow2(g.unitMag + g.subHalfCountMag + n) < Pow2(g.unitMag + n)
    ensures g.CountsIndex(v) == CountsLen(g, n) ==> !Recordable(g, CountsLen(g, n), true, v)
  {
    hide ShiftLeft, ShiftRight, Pow2, BitAnd, BitLen, BucketsNeeded;
    var len := CountsLen(g, n);
    CountsLenCovers(g, n);
    SlotOfLen(g, n);
    SlotsTile(g, len);
    ShiftLeftOne(g.unitMag + n);
    IndexIff(g, v, len);
  }

  /** A new histogram with two significant figures, which resizes itself, refuses 256. */
  lemma RefusesTwoHundredFiftySix()
    ensures var cfg := Config(1, 2, 2, true); var g := GeometryOf(cfg);
      !Recordable(g, CountsLen(g, BucketsNeeded(g, cfg.highestTrackable)), true, 256)
  {
    assert Pow10(2) == 100 && BitLen(199) == 8 && BitLen(1) == 1;
    assert Pow2(8) == 256;
    FirstUntrackableRefused(Geometry(0, 7), 1);
  }

  // ---------------------------------------------------------------- growing for a maximum

  lemma PastEndNeedsNoFewer(g: Geometry, n: nat, v: Int64)
    requires n >= 1 && v >= g.ValueFor(CountsLen(g, n))
    ensures BucketsNeeded(g, v) >= n && CountsLen(g, BucketsNeeded(g, v)) >= CountsLen(g, n)
  {
    CountsLenCovers(g, n);
    var low := g.unitMag + g.subHalfCountMag;
    if n > 1 {
      BucketsNeededIff(g, v, n - 1);
      Pow2Order(low + n - 1, low + n);
    }
    ShiftLeftOrder(BucketsNeeded(g, v) + 1, n + 1, g.subHalfCountMag);
  }

  ghost predicate Within(len: nat, oc: seq<int>) {
    forall j: nat | len <= j :: At(oc, j) == 0
  }

  /** In histograms of one geometry, a maximum within the range means no count beyond it. */
  lemma RangeCovers(g: Geometry, len: nat, oc: seq<int>)
    requires Sized(g, |oc|) && |oc| > 0 && NonNegative(oc) && len > 0
    ensures MaxOf(g, oc, Total(oc)) <= g.ValueFor(len) - 1 <==>
            forall i: nat | len <= i :: At(oc, i) == 0
  {
    MaxIsLastSlot(g, oc);
    LastCounted(oc, Total(oc));
    var m := MaxOf(g, oc, Total(oc));
    if Total(oc) > 0 {
      IndexBelowIff(g, m, len);
      assert At(oc, g.CountsIndex(m)) > 0;
    } else {
      SlotsTile(g, 0);
      ValueForIncreasing(g, 0, len);
    }
  }

  lemma TopIsOdd(g: Geometry, i: nat, n: nat)
    requires n >= 1 && i >= CountsLen(g, n)
    ensures g.ValueFor(i + 1) % 2 == 0
  {
    hide ShiftLeft, ShiftRight, Pow2, BitAnd;
    var m := g.subHalfCountMag;
    var (k, sbi) := g.Slot(i + 1);
    SlotOfNumber(g, i + 1);
    ShiftLeftOrder(1, n + 1, m);
    ShiftLeftOrder(2, n + 1, m);
    ShiftLeftAdd(1, 1, m);
    ShiftLeftOne(m);
    Pow2Next(m);
    if k == 0 { ShiftLeftZero(m); }
    ShiftLeftNext(sbi, k + g.unitMag - 1);
  }

  lemma MaxIsOdd(g: Geometry, n: nat, m: Int64)
    requires g.Fits() && n >= 1 && m >= g.ValueFor(CountsLen(g, n))
    requires m >= 0 && g.CountsIndex(m) >= 0 && m == g.ValueFor(g.CountsIndex(m) + 1) - 1
    ensures m % 2 == 1
  {
    hide *;
    IndexBelowIff(g, m, CountsLen(g, n));
    TopIsOdd(g, g.CountsIndex(m), n);
  }

  /** Growing for an odd value past the range always covers it. */
  lemma OddGrowthCovers(g: Geometry, n: nat, v: Int64)
    requires g.Fits() && n >= 1
    requires v % 2 == 1 && v >= Pow2(g.unitMag + g.subHalfCountMag + n)
    ensures var n' := BucketsNeeded(g, v);
      n' > n && CountsLen(g, n) <= CountsLen(g, n') && g.CountsIndex(v) < CountsLen(g, n')
  {
    var low, n' := g.unitMag + g.subHalfCountMag, BucketsNeeded(g, v);
    assert Pow2(low + n) == 2 * Pow2(low + n - 1);
    BucketsNeededIff(g, v, n);
    BucketsNeededIff(g, v, n');
    ShiftLeftOrder(n' + 1, n + 1, g.subHalfCountMag);
    assert Pow2(low + n') == 2 * Pow2(low + n' - 1);
    CoveredIff(g, n', v);
  }

  /** The maximum of another histogram is odd when it lies past the range, so growing for
      it always covers it. */
  lemma GrowthCovers(g: Geometry, n: nat, oc: seq<int>)
    requires g.Fits() && n >= 1
    requires Sized(g, |oc|) && |oc| > 0 && NonNegative(oc)
    requires MaxOf(g, oc, Total(oc)) > g.ValueFor(CountsLen(g, n)) - 1
    ensures var m := MaxOf(g, oc, Total(oc));
      && 0 <= m < INT64_LIMIT && BucketsNeeded(g, m) > n && CountsLen(g, n) <= CountsLen(g, BucketsNeeded(g, m))
      && forall i: nat | CountsLen(g, BucketsNeeded(g, m)) <= i :: At(oc, i) == 0
  {
    var m := MaxOf(g, oc, Total(oc));
    MaxIsLastSlot(g, oc);
    LastCounted(oc, Total(oc));
    CountsLenCovers(g, n);
    MaxIsOdd(g, n, m);
    OddGrowthCovers(g, n, m);
    var len := CountsLen(g, BucketsNeeded(g, m));
    forall i: nat | len <= i ensures At(oc, i) == 0 {
      if i < |oc| { assert g.CountsIndex(m) < i; }
    }
  }

  /** Whether the maximum of counts lies past n buckets; and what growing for it achieves. */
  lemma MaxReached(g: Geometry, n: nat, og: Geometry, oc: seq<int>)
    requires g.Fits() && n >= 1 && Sized(g, CountsLen(g, n))
    requires Sized(og, |oc|) && |oc| > 0 && NonNegative(oc)
    ensures var m := MaxOf(og, oc, Total(oc)); var reached := m <= g.ValueFor(CountsLen(g, n)) - 1;
      && 0 <= m < INT64_LIMIT
      && (g == og ==> (reached <==> Within(CountsLen(g, n), oc)))
      && (!reached ==> CountsLen(g, BucketsNeeded(g, m)) >= CountsLen(g, n))
      && (!reached && g == og ==> BucketsNeeded(g, m) > n && Within(CountsLen(g, BucketsNeeded(g, m)), oc))
  {
    var m := MaxOf(og, oc, Total(oc));
    MaxIsLastSlot(og, oc);
    if g == og { CountsLenCovers(g, n); RangeCovers(g, CountsLen(g, n), oc); }
    if m > g.ValueFor(CountsLen(g, n)) - 1 {
      PastEndNeedsNoFewer(g, n, m);
      if g == og { GrowthCovers(g, n, oc); }
    }
  }

  lemma FiguresNeedBuckets(cfg: Config)
    requires cfg.lowestDiscernible >= 1 && 0 <= cfg.sigFigs
    ensures GeometryOf(cfg).subHalfCountMag > 0 <==> cfg.sigFigs > 0
  {
    if cfg.sigFigs > 0 { Pow10Positive(cfg.sigFigs - 1); }
    var x := 2 * Pow10(cfg.sigFigs) - 1;
    BitLenAtMost(x, 1);
    assert Pow2(1) == 2;
  }

  /** The trackable range that growing to n buckets stores is one a decoder accepts just when
      there are significant figures or more than one bucket. */
  lemma GrownReadableIff(cfg: Config, n: nat)
    requires cfg.lowestDiscernible >= 1 && 0 <= cfg.sigFigs && n >= 1
    ensures var g := GeometryOf(cfg);
      Pow2(g.unitMag + g.subHalfCountMag + n) - 1 >= 2 * cfg.lowestDiscernible <==> cfg.sigFigs > 0 || n > 1
  {
    var g, low := GeometryOf(cfg), cfg.lowestDiscernible;
    var u, e := g.unitMag, g.unitMag + g.subHalfCountMag + n;
    BitLenAtMost(low, u + 1);
    BitLenAtMost(low, u);
    FiguresNeedBuckets(cfg);
    Pow2Order(u + 2, e);
    assert Pow2(u + 1) == 2 * Pow2(u) && Pow2(u + 2) == 2 * Pow2(u + 1);
  }

  lemma RecordedNeedsMore(g: Geometry, n: nat, v: Int64)
    requires g.Fits() && n >= 1 && v >= 0 && g.CountsIndex(v) > CountsLen(g, n)
    ensures BucketsNeeded(g, v) > n
  {
    CoveredIff(g, n, v);
    BucketsNeededIff(g, v, n);
    CountsLenCovers(g, n);
    SlotsTile(g, CountsLen(g, n));
    IndexBelowIff(g, v, CountsLen(g, n) + 1);
  }

  lemma TinyGeometry()
    ensures var cfg := Config(1, 2, 0, true); GeometryOf(cfg) == Geometry(0, 0) && BucketsNeeded(Geometry(0, 0), 2) == 1
  {
    assert Pow10(0) == 1 && BitLen(1) == 1;
  }

  /** Without significant figures growing can store a range that no decoder accepts: merging a
      maximum of 2 into a histogram that reaches 1 grows it by nothing, and stores 1. */
  lemma GrowingCanBeUnreadable()
    ensures var cfg := Config(1, 2, 0, true); var g := GeometryOf(cfg); var n := BucketsNeeded(g, 2);
      && cfg.Accepted() && cfg.Normalised() == cfg && n == BucketsNeeded(g, cfg.highestTrackable)
      && g.HighestEquiv(g.ValueFor(CountsLen(g, n) - 1)) == 1 < 2 * cfg.lowestDiscernible
  {
    hide Pow2, ShiftLeft, ShiftRight, BitLen, BitAnd, BucketsNeeded, CountsLen;
    TinyGeometry();
    HighestOfBuckets(Geometry(0, 0), 1);
    Pow2Zero();
    Pow2Next(0);
  }

  lemma SameSubCount(a: Geometry, b: Geometry)
    requires a.SubCount() == b.SubCount() && a.unitMag == b.unitMag
    ensures a == b
  {
    Pow2Order(a.subHalfCountMag, b.subHalfCountMag);
  }
}
