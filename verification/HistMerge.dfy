/** What merging one histogram into another does to the counts. */
module HistMerge {
  import opened Bits
  import opened Common
  import opened HistGeometry
  import opened HistCounts
  import opened HistGrowth

  /** c is before with count more in slot i. */
  ghost predicate Counted(c: seq<int>, before: seq<int>, i: int, count: int) {
    forall j: nat :: At(c, j) == At(before, j) + (if j == i then count else 0)
  }

  /** What the first n counts of geometry g add to slot j of geometry h, when each is recorded
      again by the value of its slot. */
  ghost function Landed(h: Geometry, g: Geometry, oc: seq<int>, n: nat, j: nat): int
    requires Sized(g, |oc|) && n <= |oc|
  {
    if n == 0 then 0
    else
      SizedSlot(g, |oc|, n - 1);
      var lands := oc[n - 1] > 0 && h.CountsIndex(g.ValueFor(n - 1)) == j;
      Landed(h, g, oc, n - 1, j) + (if lands then oc[n - 1] else 0)
  }

  /** c is start with the first n counts of geometry g added where they land. */
  ghost predicate Landing(c: seq<int>, start: seq<int>, h: Geometry, g: Geometry, oc: seq<int>, n: nat)
    requires Sized(g, |oc|) && n <= |oc|
  {
    forall j: nat :: At(c, j) == At(start, j) + Landed(h, g, oc, n, j)
  }

  lemma NoneLanded(start: seq<int>, h: Geometry, g: Geometry, oc: seq<int>)
    requires Sized(g, |oc|)
    ensures Landing(start, start, h, g, oc, 0)
  {
  }

  lemma LandsNext(c: seq<int>, before: seq<int>, start: seq<int>, h: Geometry, g: Geometry, oc: seq<int>, i: nat)
    requires Sized(g, |oc|) && i < |oc| && NonNegative(oc) && g.ValueFor(i) < INT64_LIMIT
    requires Landing(before, start, h, g, oc, i)
    requires if oc[i] > 0 then Counted(c, before, h.CountsIndex(g.ValueFor(i)), oc[i]) else c == before
    ensures Landing(c, start, h, g, oc, i + 1)
  {
  }

  lemma TakenNext(c: seq<int>, before: seq<int>, start: seq<int>, h: Geometry, g: Geometry, oc: seq<int>, i: nat)
    requires Sized(g, |oc|) && i < |oc| && NonNegative(oc) && g.ValueFor(i) < INT64_LIMIT
    requires Landing(start, before, h, g, oc, i)
    requires if oc[i] > 0 then Counted(c, before, h.CountsIndex(g.ValueFor(i)), -oc[i]) else c == before
    ensures Landing(start, c, h, g, oc, i + 1)
  {
  }

  /** In histograms of one geometry each count lands in its own slot. */
  lemma {:induction false} LandedBefore(g: Geometry, oc: seq<int>, n: nat, j: nat)
    requires Sized(g, |oc|) && n <= |oc| && NonNegative(oc)
    ensures Landed(g, g, oc, n, j) == if j < n then oc[j] else 0
  {
    if n == 0 {
    } else {
      LandedBefore(g, oc, n - 1, j);
      SizedSlot(g, |oc|, n - 1);
      IndexOfValueFor(g, n - 1);
    }
  }

  lemma LandedSame(g: Geometry, oc: seq<int>)
    requires Sized(g, |oc|) && NonNegative(oc)
    ensures forall j: nat :: Landed(g, g, oc, |oc|, j) == At(oc, j)
  {
    forall j: nat ensures Landed(g, g, oc, |oc|, j) == At(oc, j) { LandedBefore(g, oc, |oc|, j); }
  }

  lemma {:induction false} LandedGrows(h: Geometry, g: Geometry, oc: seq<int>, n: nat, m: nat, j: nat)
    requires Sized(g, |oc|) && n <= m <= |oc| && NonNegative(oc)
    ensures 0 <= Landed(h, g, oc, n, j) <= Landed(h, g, oc, m, j)
    decreases m
  {
    if m == 0 {
    } else if n == m {
      LandedGrows(h, g, oc, n - 1, m - 1, j);
    } else {
      LandedGrows(h, g, oc, n, m - 1, j);
    }
  }

  // ---------------------------------------------------------------- taking away

  /** No slot that oc counts in is counted fewer times in c. */
  ghost predicate Covers(c: seq<int>, oc: seq<int>) {
    forall j: nat :: At(oc, j) > 0 ==> At(oc, j) <= At(c, j)
  }

  /** No slot in which the first n counts land is counted fewer times in c. */
  ghost predicate CoversLanded(c: seq<int>, h: Geometry, g: Geometry, oc: seq<int>, n: nat)
    requires Sized(g, |oc|) && n <= |oc|
  {
    forall j: nat :: Landed(h, g, oc, n, j) > 0 ==> Landed(h, g, oc, n, j) <= At(c, j)
  }

  lemma CoversSame(c: seq<int>, g: Geometry, oc: seq<int>)
    requires Sized(g, |oc|) && NonNegative(oc)
    ensures CoversLanded(c, g, g, oc, |oc|) <==> Covers(c, oc)
  {
    hide Landed, At;
    LandedSame(g, oc);
  }

  /** The next count that lands in slot j is covered by what is left there, or nothing is. */
  lemma CoversNext(c: seq<int>, left: seq<int>, h: Geometry, g: Geometry, oc: seq<int>, i: nat, j: nat)
    requires Sized(g, |oc|) && i < |oc| && NonNegative(oc) && g.ValueFor(i) < INT64_LIMIT
    requires Landing(c, left, h, g, oc, i) && CoversLanded(c, h, g, oc, i)
    requires oc[i] > 0 && j == h.CountsIndex(g.ValueFor(i))
    ensures oc[i] <= At(left, j) ==> CoversLanded(c, h, g, oc, i + 1)
    ensures oc[i] > At(left, j) ==> !CoversLanded(c, h, g, oc, |oc|)
  {
    if oc[i] > At(left, j) { LandedGrows(h, g, oc, i + 1, |oc|, j); }
    LandedGrows(h, g, oc, i, i, j);
  }

  lemma CoversSkip(c: seq<int>, h: Geometry, g: Geometry, oc: seq<int>, i: nat)
    requires Sized(g, |oc|) && i < |oc| && oc[i] <= 0 && CoversLanded(c, h, g, oc, i)
    ensures CoversLanded(c, h, g, oc, i + 1)
  {
  }

  lemma CoversNone(c: seq<int>, h: Geometry, g: Geometry, oc: seq<int>)
    requires Sized(g, |oc|)
    ensures CoversLanded(c, h, g, oc, 0)
  {
  }

  // ---------------------------------------------------------------- what can be merged

  /** The value of every slot that oc counts in is below end. */
  ghost predicate LandInside(end: int, g: Geometry, oc: seq<int>) {
    forall i: nat | i < |oc| && oc[i] > 0 :: g.ValueFor(i) < end
  }

  /** Or at most at the end. */
  ghost predicate LandUpTo(end: int, g: Geometry, oc: seq<int>) {
    forall i: nat | i < |oc| && oc[i] > 0 :: g.ValueFor(i) <= end
  }

  /** The maximum is in range; or growing for it is allowed and covers it, which it does unless the
      maximum is a power of two, and the only value of its slot. */
  ghost predicate Mergeable(h: Geometry, len: nat, autoResize: bool, g: Geometry, oc: seq<int>)
    requires Sized(g, |oc|) && NonNegative(oc) && |oc| > 0
  {
    MaxIsLastSlot(g, oc);
    var m := MaxOf(g, oc, Total(oc));
    m <= h.ValueFor(len) - 1 || (autoResize && !(IsPow2(m) && g.LowestEquiv(m) == m))
  }

  /** No slot counted in lies past that of the maximum. */
  lemma SlotsUpToMax(g: Geometry, oc: seq<int>, i: nat)
    requires Sized(g, |oc|) && NonNegative(oc) && i < |oc| && oc[i] > 0
    ensures var m := MaxOf(g, oc, Total(oc));
      && 0 <= m < INT64_LIMIT && 0 <= g.CountsIndex(m) < |oc| && oc[g.CountsIndex(m)] > 0
      && g.ValueFor(i) <= g.ValueFor(g.CountsIndex(m)) == g.LowestEquiv(m) <= m
  {
    hide MaxOf, Total;
    MaxIsLastSlot(g, oc);
    LastCounted(oc, Total(oc));
    var m := MaxOf(g, oc, Total(oc));
    ValueForIndexOf(g, m);
    if i < g.CountsIndex(m) { ValueForIncreasing(g, i, g.CountsIndex(m)); }
  }

  /** What lands inside n buckets that reach the maximum. */
  lemma ReachedLandsInside(h: Geometry, n: nat, g: Geometry, oc: seq<int>)
    requires Sized(g, |oc|) && NonNegative(oc) && |oc| > 0
    requires MaxOf(g, oc, Total(oc)) <= h.ValueFor(CountsLen(h, n)) - 1
    ensures LandInside(h.ValueFor(CountsLen(h, n)), g, oc)
  {
    hide MaxOf, Total;
    var end := h.ValueFor(CountsLen(h, n));
    forall i: nat | i < |oc| && oc[i] > 0 ensures g.ValueFor(i) < end { SlotsUpToMax(g, oc, i); }
  }

  /** What lands inside and up to an end, told by the slot of the maximum. */
  lemma LandsByMax(g: Geometry, oc: seq<int>, end: int)
    requires Sized(g, |oc|) && NonNegative(oc) && |oc| > 0 && MaxOf(g, oc, Total(oc)) > 0
    ensures var m := MaxOf(g, oc, Total(oc));
      && 0 <= m < INT64_LIMIT
      && (g.LowestEquiv(m) <= end ==> LandUpTo(end, g, oc)) && (LandInside(end, g, oc) <==> g.LowestEquiv(m) < end)
  {
    hide MaxOf, Total;
    MaxIsLastSlot(g, oc);
    LastCounted(oc, Total(oc));
    var m := MaxOf(g, oc, Total(oc));
    var k := g.CountsIndex(m);
    forall i: nat | i < |oc| && oc[i] > 0 ensures g.ValueFor(i) <= g.LowestEquiv(m) { SlotsUpToMax(g, oc, i); }
    SlotsUpToMax(g, oc, k);
  }

  lemma LowestIsLow(g: Geometry, v: Int64)
    requires g.Fits() && 0 <= v
    ensures g.LowestEquiv(v) <= v
  {
    ValueForIndexOf(g, v);
  }

  /** And inside those it was grown by. */
  lemma GrownLandsUpTo(h: Geometry, n: nat, g: Geometry, oc: seq<int>)
    requires h.Fits() && n >= 1 && Sized(g, |oc|) && NonNegative(oc) && |oc| > 0
    requires MaxOf(g, oc, Total(oc)) > h.ValueFor(CountsLen(h, n)) - 1
    ensures 0 <= MaxOf(g, oc, Total(oc)) < INT64_LIMIT
    ensures var m := MaxOf(g, oc, Total(oc));
      var end := h.ValueFor(CountsLen(h, BucketsNeeded(h, m)));
      LandUpTo(end, g, oc) && (LandInside(end, g, oc) <==> !(IsPow2(m) && g.LowestEquiv(m) == m))
  {
    hide MaxOf, Total, Pow2, IsPow2, BucketsNeeded, LandInside, LandUpTo;
    var m := MaxOf(g, oc, Total(oc));
    CountsLenCovers(h, n);
    LandsByMax(g, oc, 0);
    var n' := BucketsNeeded(h, m);
    CountsLenCovers(h, n');
    BucketsNeededIff(h, m, n');
    NeededOrEqual(h, n, m);
    LandsByMax(g, oc, h.ValueFor(CountsLen(h, n')));
    LowestIsLow(g, m);
  }

  /** A value whose slot is inside, or the first past the end. */
  lemma LandsAt(h: Geometry, len: nat, v: Int64)
    requires h.Fits() && 0 <= v <= h.ValueFor(len)
    ensures 0 <= h.CountsIndex(v) <= len && (h.CountsIndex(v) < len <==> v < h.ValueFor(len))
  {
    SlotEnds(h, v);
    IndexBelowIff(h, v, len);
    SlotsTile(h, len);
    IndexBelowIff(h, v, len + 1);
  }

  lemma InsideIsUpTo(end: int, g: Geometry, oc: seq<int>)
    ensures LandInside(end, g, oc) ==> LandUpTo(end, g, oc)
  {
  }

  /** In histograms of one geometry what lies within the slots lands inside. */
  lemma WithinIsInside(g: Geometry, len: nat, oc: seq<int>)
    requires Within(len, oc)
    ensures LandInside(g.ValueFor(len), g, oc)
  {
    forall i: nat | i < |oc| && oc[i] > 0 ensures g.ValueFor(i) < g.ValueFor(len) {
      assert At(oc, i) > 0;
      ValueForIncreasing(g, i, len);
    }
  }

  /** Growing changes nothing about what is covered. */
  lemma SameCovered(c: seq<int>, grown: seq<int>, h: Geometry, g: Geometry, oc: seq<int>)
    requires Sized(g, |oc|) && forall j: nat :: At(grown, j) == At(c, j)
    ensures CoversLanded(c, h, g, oc, |oc|) <==> CoversLanded(grown, h, g, oc, |oc|)
  {
    hide At, Landed;
  }

  /** In the first half bucket slots are values. */
  lemma SmallSlot(g: Geometry, i: nat)
    requires g.unitMag == 0 && i < Pow2(g.subHalfCountMag)
    ensures g.ValueFor(i) == i
  {
    hide Pow2, BitAnd, ShiftRight;
    SlotOfNumber(g, i);
    Pow2Next(g.subHalfCountMag);
    ShiftLeftZero(g.subHalfCountMag);
    assert SlotNumber(g, 0, i) == i;
    SlotUnique(g, g.Slot(i).0, g.Slot(i).1, 0, i);
  }

  lemma SmallSlots()
    ensures Geometry(0, 7).ValueFor(4) == 4 && Geometry(0, 7).ValueFor(5) == 5
  {
    var g := Geometry(0, 7);
    SmallSlot(g, 4);
    SmallSlot(g, 5);
  }

  lemma PowerFour()
    ensures IsPow2(4) && Pow2(1) == 2 && Pow2(7) == 0x80
  {
    SmallPowers();
    IsPow2Iff(4, 2);
    assert Pow2(2) == 4;
  }

  /** So a histogram whose last value is a power of two past the range, and alone in its slot, cannot
      be added. */
  lemma AloneIsNotMergeable(h: Geometry, len: nat, autoResize: bool, g: Geometry, oc: seq<int>, i: nat)
    requires Sized(g, |oc|) && NonNegative(oc) && i < |oc| && oc[i] > 0 && forall j | i < j < |oc| :: oc[j] == 0
    requires g.ValueFor(i + 1) == g.ValueFor(i) + 1 && IsPow2(g.ValueFor(i)) && g.ValueFor(i) >= h.ValueFor(len)
    ensures !Mergeable(h, len, autoResize, g, oc)
  {
    hide MaxOf, Total, IsPow2;
    MaxIsLastSlot(g, oc);
    LastCounted(oc, Total(oc));
    ValueForIndexOf(g, MaxOf(g, oc, Total(oc)));
  }

  /** The value 4 in a two-figure histogram is such a value for a new one without significant
      figures. */
  lemma FourIsAlone()
    ensures var g, h := Geometry(0, 7), Geometry(0, 0);
      g.ValueFor(4) == 4 && g.ValueFor(5) == 5 && IsPow2(4) && h.ValueFor(CountsLen(h, 1)) == 2
  {
    PowerFour();
    SmallSlots();
    hide Pow2, ShiftLeft, ShiftRight, BitAnd, BitLen;
    CountsLenCovers(Geometry(0, 0), 1);
  }

  // ---------------------------------------------------------------- in terms of recorded values

  ghost predicate Fit(values: seq<int>) {
    forall i | 0 <= i < |values| :: 0 <= values[i] < INT64_LIMIT
  }

  /** Values as a histogram of geometry g knows them: the low ends of their slots. */
  function RoundedDown(g: Geometry, values: seq<int>): (r: seq<int>)
    requires Fit(values)
    ensures |r| == |values| && forall i | 0 <= i < |r| :: r[i] == g.LowestEquiv(values[i])
  {
    seq(|values|, i requires 0 <= i < |values| => g.LowestEquiv(values[i]))
  }

  lemma LowestFits(g: Geometry, v: Int64)
    requires v >= 0 && g.Fits()
    ensures 0 <= g.LowestEquiv(v) <= v
  {
    hide ShiftLeft, ShiftRight, Pow2, BitLen, BitAnd;
    ValueForIndexOf(g, v);
  }

  predicate FallsIn(h: Geometry, g: Geometry, v: Int64, j: nat)
    requires v >= 0 && g.Fits()
  {
    LowestFits(g, v);
    h.CountsIndex(g.LowestEquiv(v)) == j
  }

  /** How many of the values below end fall in slot j of h, when they are rounded down by g. */
  function Falling(h: Geometry, g: Geometry, values: seq<int>, end: int, j: nat): nat
    requires Fit(values) && g.Fits()
  {
    if values == [] then 0
    else
      var n := |values| - 1;
      var falls := values[n] < end && FallsIn(h, g, values[n], j);
      Falling(h, g, values[..n], end, j) + (if falls then 1 else 0)
  }

  /** Those of one more slot of g all fall in the same slot. */
  lemma {:induction false} FallingNext(h: Geometry, g: Geometry, values: seq<int>, i: nat, j: nat)
    requires Fit(values) && g.Fits() && g.ValueFor(i) < INT64_LIMIT
    ensures Falling(h, g, values, g.ValueFor(i + 1), j) - Falling(h, g, values, g.ValueFor(i), j) ==
      if h.CountsIndex(g.ValueFor(i)) != j then 0
      else CountBelow(values, g.ValueFor(i + 1)) - CountBelow(values, g.ValueFor(i))
  {
    hide ShiftLeft, ShiftRight, Pow2, BitLen, BitAnd;
    if values == [] {
    } else {
      var n := |values| - 1;
      var v := values[n];
      FallingNext(h, g, values[..n], i, j);
      SlotsTile(g, i);
      IndexIff(g, v, i);
      SlotEnds(g, v);
    }
  }

  lemma {:induction false} FallingNone(h: Geometry, g: Geometry, values: seq<int>, j: nat)
    requires Fit(values) && g.Fits()
    ensures Falling(h, g, values, 0, j) == 0
  {
    if values == [] {
    } else {
      FallingNone(h, g, values[..|values| - 1], j);
    }
  }

  /** What lands in a slot are the values that fall in it. */
  lemma {:induction false} LandedFalls(h: Geometry, g: Geometry, oc: seq<int>, values: seq<int>, n: nat, j: nat)
    requires Sized(g, |oc|) && n <= |oc| && Fit(values) && Represents(g, oc, values)
    ensures Landed(h, g, oc, n, j) == Falling(h, g, values, g.ValueFor(n), j)
  {
    hide ShiftLeft, ShiftRight, Pow2, BitLen, BitAnd, Falling;
    if n == 0 {
      SlotsTile(g, 0);
      FallingNone(h, g, values, j);
    } else {
      LandedFalls(h, g, oc, values, n - 1, j);
      SizedSlot(g, |oc|, n - 1);
      FallingNext(h, g, values, n - 1, j);
      SlotsTile(g, n - 1);
      CountBelowMonotone(values, g.ValueFor(n - 1), g.ValueFor(n));
    }
  }

  /** And these are those counted between the ends of the slot. */
  lemma {:induction false} FallingCounts(h: Geometry, g: Geometry, values: seq<int>, end: int, j: nat)
    requires Fit(values) && h.Fits() && g.Fits() && forall i | 0 <= i < |values| :: values[i] < end
    ensures var r := RoundedDown(g, values);
      Falling(h, g, values, end, j) == CountBelow(r, h.ValueFor(j + 1)) - CountBelow(r, h.ValueFor(j))
  {
    hide ShiftLeft, ShiftRight, Pow2, BitLen, BitAnd;
    if values == [] {
    } else {
      var n := |values| - 1;
      var low := g.LowestEquiv(values[n]);
      FallingCounts(h, g, values[..n], end, j);
      assert RoundedDown(g, values) == RoundedDown(g, values[..n]) + [low];
      CountBelowAppend(RoundedDown(g, values[..n]), low, h.ValueFor(j + 1));
      CountBelowAppend(RoundedDown(g, values[..n]), low, h.ValueFor(j));
      ValueForIndexOf(g, values[n]);
      IndexIff(h, low, j);
      SlotsTile(h, j);
    }
  }

  lemma {:induction false} CountBelowBoth(a: seq<int>, b: seq<int>, x: int)
    ensures CountBelow(a + b, x) == CountBelow(a, x) + CountBelow(b, x)
  {
    if b == [] {
      assert a + b == a;
    } else {
      var n := |b| - 1;
      CountBelowBoth(a, b[..n], x);
      CountBelowAppend(a + b[..n], b[n], x);
      assert (a + b[..n]) + [b[n]] == a + b;
    }
  }

  /** What is recorded by a histogram fits, and so does it when it is rounded down. */
  lemma RepresentedFits(g: Geometry, oc: seq<int>, values: seq<int>)
    requires Sized(g, |oc|) && Represents(g, oc, values)
    ensures Fit(values) && forall i | 0 <= i < |values| :: values[i] < g.ValueFor(|oc|)
  {
    forall i | 0 <= i < |values| ensures 0 <= values[i] < g.ValueFor(|oc|) { assert values[i] in values; }
  }

  /** What lands in slot j of h, counted on the values. */
  lemma LandedCounts(h: Geometry, g: Geometry, oc: seq<int>, values: seq<int>, j: nat)
    requires h.Fits() && Sized(g, |oc|) && Represents(g, oc, values)
    ensures Fit(values)
    ensures var r := RoundedDown(g, values);
      Landed(h, g, oc, |oc|, j) == CountBelow(r, h.ValueFor(j + 1)) - CountBelow(r, h.ValueFor(j))
  {
    RepresentedFits(g, oc, values);
    LandedFalls(h, g, oc, values, |oc|, j);
    FallingCounts(h, g, values, g.ValueFor(|oc|), j);
  }

  lemma {:induction false} CountedWhere(values: seq<int>, i: nat, x: int, y: int)
    requires i < |values| && x <= values[i] < y
    ensures CountBelow(values, x) < CountBelow(values, y)
  {
    var n := |values| - 1;
    if i < n {
      CountedWhere(values[..n], i, x, y);
    } else {
      CountBelowMonotone(values[..n], x, y);
    }
  }

  /** A value rounded down is that of a slot counted in. */
  lemma RoundedLandsInside(end: int, g: Geometry, oc: seq<int>, values: seq<int>, i: nat)
    requires Sized(g, |oc|) && Represents(g, oc, values) && LandInside(end, g, oc) && i < |values|
    ensures Fit(values) && 0 <= g.LowestEquiv(values[i]) < end
  {
    hide ShiftLeft, ShiftRight, Pow2, BitLen, BitAnd;
    RepresentedFits(g, oc, values);
    var v := values[i];
    SlotEnds(g, v);
    var k := g.CountsIndex(v);
    IndexBelowIff(g, v, |oc|);
    CountedWhere(values, i, g.ValueFor(k), g.ValueFor(k + 1));
    assert oc[k] > 0;
  }

  /** Slots past the end count no value, either. */
  lemma AtCounts(h: Geometry, c: seq<int>, values: seq<int>, j: nat)
    requires Represents(h, c, values)
    ensures At(c, j) == CountBelow(values, h.ValueFor(j + 1)) - CountBelow(values, h.ValueFor(j))
  {
    hide ShiftLeft, ShiftRight, Pow2, BitLen, BitAnd;
    if j >= |c| {
      if |c| < j { ValueForIncreasing(h, |c|, j); }
      SlotsTile(h, j);
      CountBelowAll(values, h.ValueFor(j));
      CountBelowAll(values, h.ValueFor(j + 1));
    }
  }

  /** Adding counts adds the values that they stand for, rounded down by the geometry they come
      from. */
  lemma LandingAdds(h: Geometry, start: seq<int>, c: seq<int>, values: seq<int>,
                    g: Geometry, oc: seq<int>, added: seq<int>)
    requires Represents(h, start, values) && Sized(g, |oc|) && Represents(g, oc, added) && |start| <= |c|
    requires Landing(c, start, h, g, oc, |oc|) && LandInside(h.ValueFor(|c|), g, oc)
    ensures Fit(added) && Represents(h, c, values + RoundedDown(g, added))
  {
    hide ShiftLeft, ShiftRight, Pow2, BitLen, BitAnd, Landed, LandInside;
    RepresentedFits(g, oc, added);
    var rounded := RoundedDown(g, added);
    var all := values + rounded;
    if |start| < |c| { ValueForIncreasing(h, |start|, |c|); }
    forall i | 0 <= i < |rounded| ensures 0 <= rounded[i] < h.ValueFor(|c|) {
      RoundedLandsInside(h.ValueFor(|c|), g, oc, added, i);
    }
    forall j: nat | j < |c|
      ensures c[j] == CountBelow(all, h.ValueFor(j + 1)) - CountBelow(all, h.ValueFor(j))
    {
      LandedCounts(h, g, oc, added, j);
      CountBelowBoth(values, rounded, h.ValueFor(j + 1));
      CountBelowBoth(values, rounded, h.ValueFor(j));
      AtCounts(h, start, values, j);
    }
  }

  /** Taking counts away takes away these values. */
  lemma LandingTakes(h: Geometry, c: seq<int>, left: seq<int>, values: seq<int>,
                     g: Geometry, oc: seq<int>, taken: seq<int>)
    requires Sized(g, |oc|) && Represents(g, oc, taken) && |c| <= |left| && Landing(c, left, h, g, oc, |oc|)
    requires Fit(taken) && Represents(h, c, values + RoundedDown(g, taken))
    ensures Represents(h, left, values)
  {
    hide ShiftLeft, ShiftRight, Pow2, BitLen, BitAnd, Landed;
    var rounded := RoundedDown(g, taken);
    var all := values + rounded;
    if |c| < |left| { ValueForIncreasing(h, |c|, |left|); }
    forall v | v in values ensures 0 <= v < h.ValueFor(|left|) { assert v in all; }
    forall j: nat | j < |left|
      ensures left[j] == CountBelow(values, h.ValueFor(j + 1)) - CountBelow(values, h.ValueFor(j))
    {
      LandedCounts(h, g, oc, taken, j);
      CountBelowBoth(values, rounded, h.ValueFor(j + 1));
      CountBelowBoth(values, rounded, h.ValueFor(j));
      AtCounts(h, c, all, j);
    }
  }
}
