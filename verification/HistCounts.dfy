/** Counts arrays as sequences: running sums, the slot a quantile is read from, and the
    recorded values that a counts array stands for. */
module HistCounts {
  import opened Bits
  import opened Common
  import opened HistGeometry

  function PrefixSum(c: seq<int>, n: nat): int
    requires n <= |c|
  {
    if n == 0 then 0 else PrefixSum(c, n - 1) + c[n - 1]
  }

  function Total(c: seq<int>): int {
    PrefixSum(c, |c|)
  }

  /** Slot i of c, where slots past the end count nothing. */
  function At(c: seq<int>, i: nat): int {
    if i < |c| then c[i] else 0
  }

  /** c cut or padded with zeros to n slots. */
  function Resized(c: seq<int>, n: nat): (r: seq<int>)
    ensures |r| == n && forall i: nat | i < n :: r[i] == At(c, i)
  {
    seq(n, i requires 0 <= i => At(c, i))
  }

  predicate NonNegative(c: seq<int>) {
    forall i | 0 <= i < |c| :: c[i] >= 0
  }

  lemma {:induction false} PrefixSumSame(c: seq<int>, d: seq<int>, n: nat)
    requires n <= |c| && n <= |d| && forall i | 0 <= i < n :: c[i] == d[i]
    ensures PrefixSum(c, n) == PrefixSum(d, n)
  {
    if n == 0 {
    } else {
      PrefixSumSame(c, d, n - 1);
    }
  }

  lemma {:induction false} PrefixSumUpdate(c: seq<int>, i: nat, x: int, n: nat)
    requires i < |c| && n <= |c|
    ensures PrefixSum(c[i := c[i] + x], n) == PrefixSum(c, n) + if i < n then x else 0
  {
    if n == 0 {
    } else {
      PrefixSumUpdate(c, i, x, n - 1);
    }
  }

  lemma {:induction false} PrefixSumMonotone(c: seq<int>, m: nat, n: nat)
    requires NonNegative(c) && m <= n <= |c|
    ensures PrefixSum(c, m) <= PrefixSum(c, n)
  {
    if m < n { PrefixSumMonotone(c, m, n - 1); }
  }

  lemma {:induction false} PrefixSumPadded(c: seq<int>, n: nat, m: nat)
    requires |c| <= m <= n
    ensures PrefixSum(Resized(c, n), m) == Total(c)
  {
    if m == |c| {
      PrefixSumSame(Resized(c, n), c, m);
    } else {
      PrefixSumPadded(c, n, m - 1);
    }
  }

  /** The first slot from i on whose running sum reaches want, or |c| if none does. */
  function FirstReaching(c: seq<int>, want: int, i: nat): (r: nat)
    requires i <= |c|
    ensures i <= r <= |c|
    ensures r < |c| ==> PrefixSum(c, r + 1) >= want
    ensures forall j: nat | i < j <= r :: PrefixSum(c, j) < want
    decreases |c| - i
  {
    if i == |c| || PrefixSum(c, i + 1) >= want then i else FirstReaching(c, want, i + 1)
  }

  /** A float truncated towards zero, as a conversion to an integer does. */
  function Truncate(x: real): int {
    if x >= 0.0 then x.Floor else -((-x).Floor)
  }

  /** The rank looked up for percentile p among n values. */
  function Rank(p: real, n: int): int {
    var k := Truncate(p / 100.0 * (n as real) + 0.5);
    if k < 1 then 1 else k
  }

  lemma RoundedUp(x: real)
    ensures x < 0.5 ==> Truncate(x + 0.5) < 1
    ensures x >= 0.5 ==> Truncate(x + 0.5) as real - 0.5 <= x < Truncate(x + 0.5) as real + 0.5
    ensures x >= 0.5 ==> Truncate(x + 0.5) >= 1
  {
  }

  lemma Hundredths(p: real, n: real)
    ensures 100.0 * (p / 100.0 * n) == p * n
  {
  }

  /** It is the integer nearest to p hundredths of n, but at least 1. */
  lemma RankIsNearest(p: real, n: int)
    ensures var k := Rank(p, n);
      && k >= 1
      && if p * n as real < 50.0 then k == 1 else 100.0 * k as real - 50.0 <= p * n as real < 100.0 * k as real + 50.0
  {
    hide Truncate;
    RoundedUp(p / 100.0 * n as real);
    Hundredths(p, n as real);
  }

  lemma RankInRange(p: real, n: int)
    requires n >= 1 && p <= 100.0
    ensures 1 <= Rank(p, n) <= n && Rank(100.0, n) == n
  {
    var q := p / 100.0;
    assert q * (n as real) <= n as real;
  }

  datatype HistVal = HistVal(value: int, count: int, cumCount: int, percentile: real)

  /** Every slot of an array of n slots has a low end that fits an int64. */
  ghost predicate Sized(g: Geometry, n: nat) {
    g.Fits() && g.ValueFor(n) <= INT64_LIMIT
  }

  lemma SizedSlot(g: Geometry, n: nat, i: nat)
    requires Sized(g, n) && i < n
    ensures g.ValueFor(i) < INT64_LIMIT
  {
    ValueForIncreasing(g, i, n);
  }

  function Min(x: real, y: real): real { if x <= y then x else y }

  function Share(part: int, total: int): real {
    if total == 0 then 100.0 else 100.0 * (part as real) / (total as real)
  }

  lemma ShareIs(part: nat, total: nat)
    ensures total == 0 ==> Share(part, total) == 100.0
    ensures Share(part, total) * total as real == 100.0 * part as real || total == 0
  {
  }

  /** What PercentileVal reports for the counts c and the given total. */
  function Percentile(g: Geometry, c: seq<int>, total: int, p: real): HistVal
    requires Sized(g, |c|)
  {
    var p := Min(p, 100.0);
    var i := FirstReaching(c, Rank(p, total), 0);
    if i == |c| then HistVal(0, 0, 0, 0.0)
    else
      SizedSlot(g, |c|, i);
      var v := g.ValueFor(i);
      var cum := PrefixSum(c, i + 1);
      HistVal(if p == 0.0 then g.LowestEquiv(v) else g.HighestEquiv(v), c[i], cum, Share(cum, total))
  }

  function MaxOf(g: Geometry, c: seq<int>, total: int): int
    requires Sized(g, |c|)
  {
    Percentile(g, c, total, 100.0).value
  }

  lemma LastCounted(c: seq<int>, n: int)
    requires NonNegative(c) && n == Total(c)
    ensures n >= 0
    ensures n == 0 ==> forall j | 0 <= j < |c| :: c[j] == 0
    ensures n > 0 ==> var i := FirstReaching(c, n, 0);
      i < |c| && c[i] > 0 && forall j | i < j < |c| :: c[j] == 0
  {
    PrefixSumMonotone(c, 0, |c|);
    var i := FirstReaching(c, n, 0);
    forall j: nat | j < |c| && (n == 0 || i < j) ensures c[j] == 0 {
      if n > 0 { PrefixSumMonotone(c, i + 1, j); }
      PrefixSumMonotone(c, 0, j);
      PrefixSumMonotone(c, j + 1, |c|);
    }
    if n > 0 { assert PrefixSum(c, i) < n; }
  }

  /** The high end of slot i is in slot i. */
  lemma TopOfSlot(g: Geometry, i: nat)
    requires g.Fits() && g.ValueFor(i) < INT64_LIMIT
    ensures var m := g.HighestEquiv(g.ValueFor(i));
      0 <= m < INT64_LIMIT && g.CountsIndex(m) == i && m == g.ValueFor(i + 1) - 1
  {
    IndexOfValueFor(g, i);
    HighestEquivFits(g, g.ValueFor(i));
    SlotEnds(g, g.ValueFor(i));
  }

  /** The slot of the maximum is the last one with a count; an empty histogram has maximum 0. */
  lemma MaxIsLastSlot(g: Geometry, c: seq<int>)
    requires Sized(g, |c|) && NonNegative(c) && |c| > 0
    ensures var m := MaxOf(g, c, Total(c));
      && 0 <= m < INT64_LIMIT && 0 <= g.CountsIndex(m) < |c|
      && (forall j | g.CountsIndex(m) < j < |c| :: c[j] == 0)
      && (Total(c) > 0 ==> c[g.CountsIndex(m)] > 0 && m == g.ValueFor(g.CountsIndex(m) + 1) - 1)
      && (Total(c) == 0 ==> m == 0 && g.CountsIndex(m) == 0)
  {
    var n := Total(c);
    LastCounted(c, n);
    SlotsTile(g, 0);
    SizedSlot(g, |c|, 0);
    IndexOfValueFor(g, 0);
    if n > 0 {
      RankInRange(100.0, n);
      var i := FirstReaching(c, n, 0);
      SizedSlot(g, |c|, i);
      TopOfSlot(g, i);
    } else {
      assert FirstReaching(c, 1, 0) == |c| by {
        if FirstReaching(c, 1, 0) < |c| { PrefixSumMonotone(c, FirstReaching(c, 1, 0) + 1, |c|); }
      }
    }
  }

  lemma RankOfNone(p: real)
    ensures Rank(p, 0) == 1
  {
    assert p / 100.0 * 0.0 == 0.0;
  }

  lemma {:induction false} SumOfZeros(c: seq<int>, n: nat)
    requires n <= |c| && forall j | 0 <= j < |c| :: c[j] == 0
    ensures PrefixSum(c, n) == 0
  {
    if n == 0 {
    } else {
      SumOfZeros(c, n - 1);
    }
  }

  /** Nothing is reported of an empty histogram. */
  lemma NothingReported(g: Geometry, c: seq<int>, p: real)
    requires Sized(g, |c|) && forall j | 0 <= j < |c| :: c[j] == 0
    ensures Percentile(g, c, 0, p) == HistVal(0, 0, 0, 0.0)
  {
    RankOfNone(Min(p, 100.0));
    if FirstReaching(c, 1, 0) < |c| { SumOfZeros(c, FirstReaching(c, 1, 0) + 1); }
  }

  // ---------------------------------------------------------------- recorded values

  function CountBelow(values: seq<int>, x: int): nat {
    if values == [] then 0
    else CountBelow(values[..|values| - 1], x) + if values[|values| - 1] < x then 1 else 0
  }

  lemma {:induction false} CountBelowMonotone(values: seq<int>, x: int, y: int)
    requires x <= y
    ensures CountBelow(values, x) <= CountBelow(values, y) <= |values|
  {
    if values == [] {
    } else {
      CountBelowMonotone(values[..|values| - 1], x, y);
    }
  }

  /** x is the k-th smallest of values, counting from 1. */
  ghost predicate IsKthSmallest(values: seq<int>, k: int, x: int) {
    CountBelow(values, x) < k <= CountBelow(values, x + 1)
  }

  ghost predicate Sorted(s: seq<int>) {
    forall i, j | 0 <= i < j < |s| :: s[i] <= s[j]
  }

  lemma {:induction false} CountBelowAppend(a: seq<int>, v: int, x: int)
    ensures CountBelow(a + [v], x) == CountBelow(a, x) + if v < x then 1 else 0
  {
    assert (a + [v])[..|a|] == a;
  }

  lemma {:induction false} CountBelowSorted(s: seq<int>, x: int, k: nat)
    requires Sorted(s) && k < |s|
    ensures s[k] < x ==> CountBelow(s, x) >= k + 1
    ensures s[k] >= x ==> CountBelow(s, x) <= k
  {
    var n := |s| - 1;
    if k < n {
      CountBelowSorted(s[..n], x, k);
    } else if n > 0 {
      CountBelowSorted(s[..n], x, n - 1);
      CountBelowMonotone(s[..n], x, x);
    }
  }

  lemma {:induction false} CountBelowRemove(s: seq<int>, i: nat, x: int)
    requires i < |s|
    ensures CountBelow(s, x) == CountBelow(s[..i] + s[i + 1..], x) + if s[i] < x then 1 else 0
  {
    var n := |s| - 1;
    if i < n {
      CountBelowRemove(s[..n], i, x);
      assert s[..n][..i] + s[..n][i + 1..] == s[..i] + s[i + 1..n];
      assert s[..i] + s[i + 1..] == (s[..i] + s[i + 1..n]) + [s[n]];
      CountBelowAppend(s[..i] + s[i + 1..n], s[n], x);
    } else {
      assert s[..i] + s[i + 1..] == s[..n];
    }
  }

  lemma {:induction false} CountBelowPermutation(a: seq<int>, b: seq<int>, x: int)
    requires multiset(a) == multiset(b)
    ensures CountBelow(a, x) == CountBelow(b, x)
  {
    if a == [] {
      assert |multiset(b)| == 0;
    } else {
      var n := |a| - 1;
      assert a == a[..n] + [a[n]];
      assert a[n] in multiset(b);
      var i :| 0 <= i < |b| && b[i] == a[n];
      assert b == b[..i] + [b[i]] + b[i + 1..];
      assert multiset(a[..n]) == multiset(b[..i] + b[i + 1..]) by {
        assert multiset(a[..n]) == multiset(a) - multiset{a[n]};
        assert multiset(b) == multiset(b[..i]) + multiset{b[i]} + multiset(b[i + 1..]);
      }
      CountBelowRemove(b, i, x);
      CountBelowPermutation(a[..n], b[..i] + b[i + 1..], x);
    }
  }

  /** IsKthSmallest says what it should: it holds of the k-th element of any sorted
      rearrangement of the values. */
  lemma KthOfSorted(values: seq<int>, sorted: seq<int>, k: nat)
    requires multiset(values) == multiset(sorted) && Sorted(sorted) && 1 <= k <= |sorted|
    ensures IsKthSmallest(values, k, sorted[k - 1])
  {
    var x := sorted[k - 1];
    CountBelowPermutation(values, sorted, x);
    CountBelowPermutation(values, sorted, x + 1);
    CountBelowSorted(sorted, x, k - 1);
    CountBelowSorted(sorted, x + 1, k - 1);
  }

  /** Slot i counts exactly the recorded values that lie in its range, and every recorded
      value lies in the range of some slot. */
  ghost predicate Represents(g: Geometry, c: seq<int>, values: seq<int>) {
    && g.Fits()
    && (forall v | v in values :: 0 <= v < g.ValueFor(|c|))
    && (forall i: nat | i < |c| :: c[i] == CountBelow(values, g.ValueFor(i + 1)) - CountBelow(values, g.ValueFor(i)))
  }

  lemma {:induction false} CountBelowNone(values: seq<int>)
    requires forall v | v in values :: 0 <= v
    ensures CountBelow(values, 0) == 0
  {
    if values == [] {
    } else {
      var front := values[..|values| - 1];
      forall v | v in front ensures v in values { }
      assert values[|values| - 1] in values;
      CountBelowNone(front);
    }
  }

  lemma {:induction false} CountBelowAll(values: seq<int>, x: int)
    requires forall v | v in values :: v < x
    ensures CountBelow(values, x) == |values|
  {
    if values == [] {
    } else {
      var front := values[..|values| - 1];
      forall v | v in front ensures v in values { }
      assert values[|values| - 1] in values;
      CountBelowAll(front, x);
    }
  }

  lemma {:induction false} PrefixSumCounts(g: Geometry, c: seq<int>, values: seq<int>, n: nat)
    requires Represents(g, c, values) && n <= |c|
    ensures PrefixSum(c, n) == CountBelow(values, g.ValueFor(n))
  {
    if n == 0 {
      SlotsTile(g, 0);
      CountBelowNone(values);
    } else {
      PrefixSumCounts(g, c, values, n - 1);
    }
  }

  lemma TotalCounts(g: Geometry, c: seq<int>, values: seq<int>)
    requires Represents(g, c, values)
    ensures Total(c) == |values|
  {
    PrefixSumCounts(g, c, values, |c|);
    CountBelowAll(values, g.ValueFor(|c|));
  }

  /** Recording a value in its slot, after growing the array or not, adds that value. */
  lemma RecordingAdds(g: Geometry, c: seq<int>, values: seq<int>, n: nat, v: Int64)
    requires Represents(g, c, values) && |c| <= n && v >= 0 && g.CountsIndex(v) < n
    ensures g.CountsIndex(v) >= 0
    ensures var d := Resized(c, n); var i := g.CountsIndex(v);
      Represents(g, d[i := d[i] + 1], values + [v])
  {
    ValueForIndexOf(g, v);
    var d, i := Resized(c, n), g.CountsIndex(v);
    var e := d[i := d[i] + 1];
    IndexBelowIff(g, v, n);
    if |c| < n { ValueForIncreasing(g, |c|, n); }
    forall j: nat | j < n
      ensures e[j] == CountBelow(values + [v], g.ValueFor(j + 1)) - CountBelow(values + [v], g.ValueFor(j))
    {
      IndexIff(g, v, j);
      SlotsTile(g, j);
      CountBelowAppend(values, v, g.ValueFor(j + 1));
      CountBelowAppend(values, v, g.ValueFor(j));
      if j >= |c| {
        if |c| < j { ValueForIncreasing(g, |c|, j); }
        CountBelowAll(values, g.ValueFor(j));
        CountBelowAll(values, g.ValueFor(j + 1));
      }
    }
  }

  lemma SameSlotSameEnds(g: Geometry, x: Int64, v: Int64, i: nat)
    requires g.Fits() && x >= 0 && g.CountsIndex(x) == i && v == g.ValueFor(i)
    ensures g.LowestEquiv(v) == g.LowestEquiv(x) && g.HighestEquiv(v) == g.HighestEquiv(x)
  {
    IndexOfValueFor(g, i);
    SlotEnds(g, x);
    SlotEnds(g, v);
  }

  lemma CountBelowOrder(values: seq<int>, x: int, y: int)
    requires CountBelow(values, x) < CountBelow(values, y)
    ensures x < y
  {
    if y <= x { CountBelowMonotone(values, y, x); }
  }

  lemma RankedSlot(g: Geometry, c: seq<int>, values: seq<int>, k: int, x: int, i: nat)
    requires Sized(g, |c|) && Represents(g, c, values)
    requires IsKthSmallest(values, k, x) && k >= 1
    requires i < |c| && i == FirstReaching(c, k, 0)
    ensures 0 <= x < INT64_LIMIT && g.CountsIndex(x) == i
  {
    PrefixSumCounts(g, c, values, i);
    PrefixSumCounts(g, c, values, i + 1);
    CountBelowOrder(values, g.ValueFor(i), x + 1);
    CountBelowOrder(values, x, g.ValueFor(i + 1));
    if i + 1 < |c| { SizedSlot(g, |c|, i + 1); }
    IndexIff(g, x, i);
  }

  lemma {:induction false} Pow10Positive(n: nat)
    ensures Pow10(n) >= 1
  {
    if n == 0 {
    } else {
      Pow10Positive(n - 1);
    }
  }

  lemma SmallerProduct(a: nat, b: nat, p: nat, x: int)
    requires a < b && p > 0 && b * p <= x
    ensures a * p < x
  {
    assert b * p == a * p + (b - a) * p;
    assert (b - a) * p == (b - a - 1) * p + p;
  }

  lemma ErrorBelowWidth(g: Geometry, x: Int64, sigFigs: nat)
    requires g.Fits() && x >= 0
    requires var width := g.SizeOfEquivalentValueRange(x);
      width == Pow2(g.unitMag) || width * Pow10(sigFigs) <= x
    ensures var error := g.HighestEquiv(x) - x;
      error >= 0 && (error < Pow2(g.unitMag) || error * Pow10(sigFigs) < x)
  {
    ValueForIndexOf(g, x);
    var error := g.HighestEquiv(x) - x;
    assert error < g.SizeOfEquivalentValueRange(x);
    if error >= Pow2(g.unitMag) {
      Pow10Positive(sigFigs);
      SmallerProduct(error, g.SizeOfEquivalentValueRange(x), Pow10(sigFigs), x);
    }
  }

  /** A percentile reports the range of the value of that rank, and thus exceeds it by less
      than a unit or by less than the promised fraction. */
  lemma PercentileIsRanked(g: Geometry, c: seq<int>, values: seq<int>, p: real, x: int, sigFigs: nat)
    requires Sized(g, |c|) && Represents(g, c, values) && values != []
    requires Pow10(sigFigs) <= Pow2(g.subHalfCountMag)
    requires IsKthSmallest(values, Rank(Min(p, 100.0), |values|), x)
    ensures 0 <= x < INT64_LIMIT
    ensures Percentile(g, c, Total(c), p).value == if p == 0.0 then g.LowestEquiv(x) else g.HighestEquiv(x)
    ensures p != 0.0 ==> var error := Percentile(g, c, Total(c), p).value - x;
      error >= 0 && (error < Pow2(g.unitMag) || error * Pow10(sigFigs) < x)
  {
    hide Pow2, ShiftLeft, ShiftRight, BitLen, BitAnd;
    var k := Rank(Min(p, 100.0), |values|);
    RankInRange(Min(p, 100.0), |values|);
    TotalCounts(g, c, values);
    var i := FirstReaching(c, k, 0);
    RankedSlot(g, c, values, k, x, i);
    SizedSlot(g, |c|, i);
    SameSlotSameEnds(g, x, g.ValueFor(i), i);
    SlotWidthBound(g, sigFigs, x);
    ErrorBelowWidth(g, x, sigFigs);
  }

  /** And what else it reports: how many values lie in that range, how many do not exceed it, and
      which part of all that is. */
  lemma PercentileReports(g: Geometry, c: seq<int>, values: seq<int>, p: real, x: int)
    requires Sized(g, |c|) && Represents(g, c, values) && values != []
    requires IsKthSmallest(values, Rank(Min(p, 100.0), |values|), x)
    ensures 0 <= x < INT64_LIMIT
    ensures var r, upTo := Percentile(g, c, Total(c), p), CountBelow(values, g.HighestEquiv(x) + 1);
      && r.cumCount == upTo && r.count == upTo - CountBelow(values, g.LowestEquiv(x))
      && r.percentile == Share(upTo, |values|)
  {
    hide Pow2, ShiftLeft, ShiftRight, BitLen, BitAnd, Share;
    var k := Rank(Min(p, 100.0), |values|);
    RankInRange(Min(p, 100.0), |values|);
    TotalCounts(g, c, values);
    var i := FirstReaching(c, k, 0);
    RankedSlot(g, c, values, k, x, i);
    SizedSlot(g, |c|, i);
    SlotEnds(g, x);
    PrefixSumCounts(g, c, values, i + 1);
  }
}
