/** The histogram object: configuration, recording, resizing, merging and subtracting. */
module HdrHist {
  import opened Bits
  import opened Common
  import opened HistGeometry
  import opened HistCounts
  import opened HistGrowth
  import opened HistMerge

  class Hist {
    var counts: array<int>
    var geo: Geometry
    var bucketCount: nat
    var cfg: Config
    var totalCount: int

    ghost predicate Valid()
      reads this
    {
      && cfg.lowestDiscernible >= 1 && 0 <= cfg.sigFigs <= 5
      && geo == GeometryOf(cfg) && geo.Fits()
      && bucketCount == BucketsNeeded(geo, cfg.highestTrackable)
      && counts.Length == CountsLen(geo, bucketCount)
    }

    /** The counts are non-negative and totalCount is their sum. */
    ghost predicate Consistent()
      reads this, counts
    {
      NonNegative(counts[..]) && totalCount == Total(counts[..])
    }

    /** What a decoder asks of the trackable range, and Init establishes. */
    predicate Readable()
      reads this
    {
      cfg.highestTrackable >= 2 * cfg.lowestDiscernible
    }

    lemma ValidFacts()
      requires Valid()
      ensures geo.unitMag + geo.subHalfCountMag + bucketCount <= 63
      ensures counts.Length >= 1 && Sized(geo, counts.Length)
    {
      BucketsNeededBound(geo, cfg.highestTrackable);
      CountsLenCovers(geo, bucketCount);
      CountsLenSized(geo, bucketCount);
    }

    constructor (cfg: Config)
      requires cfg.Accepted()
      ensures Valid() && fresh(counts)
      ensures this.cfg == cfg.Normalised() && totalCount == 0 && Readable()
      ensures this.cfg == cfg.(highestTrackable := this.cfg.highestTrackable)
      ensures var least := 2 * cfg.lowestDiscernible;
        this.cfg.highestTrackable == if cfg.highestTrackable < least then least else cfg.highestTrackable
      ensures counts[..] == seq(counts.Length, _ => 0)
    {
      var cfg := cfg.Normalised();
      var g := GeometryOf(cfg);
      var n := NumBucketsToCoverVal(cfg.highestTrackable, g);
      this.cfg := cfg;
      geo := g;
      bucketCount := n;
      counts := new int[CountsLen(g, n)](_ => 0);
      totalCount := 0;
    }

    /** A new array with as many of the counts as it has room for. */
    method CopyCounts(countsLen: nat) returns (grown: array<int>)
      ensures fresh(grown) && grown[..] == Resized(counts[..], countsLen)
    {
      grown := new int[countsLen](_ => 0);
      var i := 0;
      while i < countsLen && i < counts.Length
        modifies grown
        invariant 0 <= i <= countsLen && i <= counts.Length
        invariant counts[..] == old(counts[..])
        invariant grown[..] == Resized(counts[..i], countsLen)
      {
        grown[i] := counts[i];
        i := i + 1;
      }
      assert Resized(counts[..i], countsLen) == Resized(counts[..], countsLen);
    }

    /** Replaces the counts by an array that covers highest, keeping what fits. */
    method Resize(highest: Int64)
      requires Valid()
      modifies this
      ensures Valid() && fresh(counts)
      ensures geo == old(geo) && totalCount == old(totalCount)
      ensures bucketCount == BucketsNeeded(geo, highest) && geo.unitMag + geo.subHalfCountMag + bucketCount <= 63
      ensures cfg.highestTrackable == Pow2(geo.unitMag + geo.subHalfCountMag + bucketCount) - 1
      ensures cfg == old(cfg).(highestTrackable := cfg.highestTrackable)
      ensures counts[..] == Resized(old(counts[..]), CountsLen(geo, BucketsNeeded(geo, highest)))
    {
      hide Pow2, ShiftLeft, ShiftRight, BitLen;
      var n := NumBucketsToCoverVal(highest, geo);
      BucketsNeededBound(geo, highest);
      HighestOfBuckets(geo, n);
      var countsLen := CountsLen(geo, n);
      var grown := CopyCounts(countsLen);
      counts := grown;
      bucketCount := n;
      cfg := cfg.(highestTrackable := geo.HighestEquiv(geo.ValueFor(countsLen - 1)));
    }

    /** Adds count occurrences of v. The result is false where the code panics: past the
        end of the counts, after a failed attempt to grow them. */
    method RecordN(v: Int64, count: int) returns (ok: bool)
      requires Valid()
      modifies this, counts
      ensures Valid() && geo == old(geo)
      ensures counts == old(counts) || fresh(counts)
      ensures counts == old(counts) || (geo.CountsIndex(v) > old(counts.Length) && old(cfg.autoResize))
      ensures cfg == old(cfg).(highestTrackable := cfg.highestTrackable)
      ensures cfg.highestTrackable == if counts == old(counts) then old(cfg).highestTrackable
                                      else Pow2(geo.unitMag + geo.subHalfCountMag + bucketCount) - 1
      ensures old(Readable()) ==> (Readable() <==> counts == old(counts) || cfg.sigFigs > 0 || bucketCount > 1)
      ensures old(Readable()) && ok ==> Readable()
      ensures ok <==> Recordable(geo, old(counts.Length), old(cfg.autoResize), v)
      ensures var len := old(counts.Length);
        var grows := geo.CountsIndex(v) > len && old(cfg.autoResize);
        var newLen := if grows then CountsLen(geo, BucketsNeeded(geo, v)) else len;
        var kept := Resized(old(counts[..]), newLen);
        if ok then
          var i := geo.CountsIndex(v);
          && 0 <= i < newLen && len <= newLen
          && counts[..] == kept[i := kept[i] + count] && totalCount == old(totalCount) + count
        else
          counts[..] == kept && totalCount == old(totalCount)
      ensures var i := geo.CountsIndex(v);
        v >= 0 && 0 <= i < old(counts.Length) ==>
          ok && counts == old(counts) && counts[..] == old(counts[..])[i := old(counts[..])[i] + count]
    {
      hide Pow2, ShiftLeft, ShiftRight, BitLen;
      ValidFacts();
      var i := geo.CountsIndex(v);
      ghost var len := counts.Length;
      assert counts[..] == Resized(counts[..], len);
      if i > counts.Length && cfg.autoResize {
        Resize(v);
        ValidFacts();
        GrownReadableIff(cfg, bucketCount);
        if v >= 0 { RecordedNeedsMore(geo, old(bucketCount), v); }
      }
      RecordableIff(geo, old(bucketCount), old(cfg.autoResize), v);
      if 0 > i || i > counts.Length {
        return false;
      }
      if i == counts.Length { // not caught by the comparison above, but by the index check
        return false;
      }
      counts[i] := counts[i] + count;
      totalCount := totalCount + count;
      return true;
    }

    method Val(v: Int64) returns (r: HistVal)
      requires Valid()
      ensures r.count == if v >= 0 && 0 <= geo.CountsIndex(v) < counts.Length then counts[geo.CountsIndex(v)] else 0
      ensures v >= 0 && 0 <= geo.CountsIndex(v) < counts.Length ==>
        && r.cumCount == PrefixSum(counts[..], geo.CountsIndex(v) + 1) && r.value == geo.HighestEquiv(v)
        && r.percentile == Share(r.cumCount, totalCount)
      ensures v >= 0 && geo.CountsIndex(v) >= counts.Length ==> r == HistVal(v, 0, totalCount, 100.0)
      ensures v < 0 ==> r == HistVal(v, 0, 0, 0.0)
    {
      var i := geo.CountsIndex(v);
      if v < 0 || i < 0 {
        if v >= 0 { SlotEnds(geo, v); }
        return HistVal(v, 0, 0, 0.0);
      }
      if i >= counts.Length {
        return HistVal(v, 0, totalCount, 100.0);
      }
      var count, j := 0, 0;
      while j < i + 1
        invariant 0 <= j <= i + 1 && count == PrefixSum(counts[..], j)
      {
        count := count + counts[j];
        j := j + 1;
      }
      return HistVal(geo.HighestEquiv(v), counts[i], count, Share(count, totalCount));
    }

    method PercentileVal(p: real) returns (r: HistVal)
      requires Valid()
      ensures Sized(geo, counts.Length) && r == Percentile(geo, counts[..], totalCount, p)
    {
      ValidFacts();
      var p := Min(p, 100.0);
      var desiredCount := Rank(p, totalCount);
      var total, i := 0, 0;
      while i < counts.Length
        invariant 0 <= i <= counts.Length && total == PrefixSum(counts[..], i)
        invariant FirstReaching(counts[..], desiredCount, 0) == FirstReaching(counts[..], desiredCount, i)
      {
        total := total + counts[i];
        if total >= desiredCount {
          SizedSlot(geo, counts.Length, i);
          var v := geo.ValueFor(i);
          if p == 0.0 {
            v := geo.LowestEquiv(v);
          } else {
            v := geo.HighestEquiv(v);
          }
          return HistVal(v, counts[i], total, Share(total, totalCount));
        }
        i := i + 1;
      }
      return HistVal(0, 0, 0, 0.0);
    }

    method Max() returns (m: int)
      requires Valid()
      ensures Sized(geo, counts.Length) && m == MaxOf(geo, counts[..], totalCount)
    {
      var r := PercentileVal(100.0);
      m := r.value;
    }

    method HighestRecordable() returns (v: int)
      requires Valid()
      ensures v == geo.ValueFor(counts.Length) - 1
    {
      ValidFacts();
      HighestOfBuckets(geo, bucketCount);
      CountsLenCovers(geo, bucketCount);
      v := geo.HighestEquiv(geo.ValueFor(counts.Length - 1));
    }

    /** The common start of Add and Sub: grows the counts to reach the maximum of o, or
        refuses when that is not allowed. No recorded count changes. */
    method Reach(o: Hist) returns (ok: bool)
      requires Valid() && o.Valid() && o.Consistent()
      requires o != this && o.counts != counts
      modifies this
      ensures Valid() && geo == old(geo) && totalCount == old(totalCount)
      ensures counts == old(counts) || fresh(counts)
      ensures cfg == old(cfg).(highestTrackable := cfg.highestTrackable)
      ensures cfg.highestTrackable == if counts == old(counts) then old(cfg).highestTrackable
                                      else Pow2(geo.unitMag + geo.subHalfCountMag + bucketCount) - 1
      ensures old(Readable()) ==>
        (Readable() <==> counts == old(counts) || cfg.sigFigs > 0 || bucketCount > 1)
      ensures Sized(o.geo, o.counts.Length) && o.counts.Length > 0
      ensures var m := MaxOf(o.geo, o.counts[..], Total(o.counts[..]));
        ok <==> old(cfg.autoResize) || m <= geo.ValueFor(old(counts.Length)) - 1
      ensures ok ==> LandUpTo(geo.ValueFor(counts.Length), o.geo, o.counts[..])
      ensures Mergeable(geo, old(counts.Length), old(cfg.autoResize), o.geo, o.counts[..]) <==>
        ok && LandInside(geo.ValueFor(counts.Length), o.geo, o.counts[..])
      ensures geo == o.geo ==> (old(Readable()) ==> Readable())
      ensures geo == o.geo ==> (ok <==> old(cfg.autoResize) || Within(old(counts.Length), o.counts[..]))
      ensures geo == o.geo && ok ==> Within(counts.Length, o.counts[..])
      ensures forall i: nat :: At(counts[..], i) == At(old(counts[..]), i)
      ensures old(counts.Length) <= counts.Length
    {
      hide Pow2, ShiftLeft, ShiftRight, BitLen, BitAnd, MaxOf, Within, NonNegative, Sized, LandUpTo, LandInside, IsPow2;
      var highestRecordable := HighestRecordable();
      var oMax := o.Max();
      o.ValidFacts();
      ValidFacts();
      MaxReached(geo, bucketCount, o.geo, o.counts[..]);
      InsideIsUpTo(geo.ValueFor(counts.Length), o.geo, o.counts[..]);
      if highestRecordable < oMax {
        GrownLandsUpTo(geo, bucketCount, o.geo, o.counts[..]);
        if !cfg.autoResize {
          return false;
        }
        Resize(oMax);
        GrownReadableIff(cfg, bucketCount);
      } else {
        ReachedLandsInside(geo, bucketCount, o.geo, o.counts[..]);
      }
      return true;
    }

    /** Merges o into this histogram: each count is added where its value lands, which for
        histograms of one geometry is its own slot, whichever of the two paths is taken. False
        is a panic, which is met unless o can be merged. */
    method Add(o: Hist) returns (ok: bool)
      requires Valid() && o.Valid() && o.Consistent()
      requires o != this && o.counts != counts
      modifies this, counts
      ensures Valid() && geo == old(geo)
      ensures counts == old(counts) || fresh(counts)
      ensures Sized(o.geo, o.counts.Length) && o.counts.Length > 0
      ensures ok <==> Mergeable(geo, old(counts.Length), old(cfg.autoResize), o.geo, o.counts[..])
      ensures ok ==> old(counts.Length) <= counts.Length && LandInside(geo.ValueFor(counts.Length), o.geo, o.counts[..])
      ensures geo == o.geo && old(Readable()) ==> Readable()
      ensures geo == o.geo ==> (ok <==> old(cfg.autoResize) || Within(old(counts.Length), o.counts[..]))
      ensures ok ==> totalCount == old(totalCount) + Total(o.counts[..])
      ensures ok ==> Landing(counts[..], old(counts[..]), geo, o.geo, o.counts[..], o.counts.Length)
      ensures geo == o.geo && ok ==>
        forall j: nat :: At(counts[..], j) == At(old(counts[..]), j) + At(o.counts[..], j)
    {
      hide Mergeable, LandInside, LandUpTo, Within, Landed, Pow2, ShiftLeft, ShiftRight, BitLen, BitAnd;
      o.ValidFacts();
      ok := Reach(o);
      if !ok {
        return;
      }
      ValidFacts();
      if geo == o.geo {
        WithinIsInside(geo, counts.Length, o.counts[..]);
        LandedSame(geo, o.counts[..]);
      }
      if bucketCount == o.bucketCount && geo.SubCount() == o.geo.SubCount() && geo.unitMag == o.geo.unitMag {
        SameSubCount(geo, o.geo);
        AddSlots(o);
      } else {
        ok := RecordSlots(o);
      }
    }

    /** The fast path: the arrays match, so they are added element by element. */
    method AddSlots(o: Hist)
      requires Valid() && o.Valid() && geo == o.geo && bucketCount == o.bucketCount
      requires o != this && o.counts != counts
      modifies this`totalCount, counts
      ensures Valid()
      ensures totalCount == old(totalCount) + Total(o.counts[..])
      ensures forall i: nat :: At(counts[..], i) == At(old(counts[..]), i) + At(o.counts[..], i)
    {
      ghost var start, oc := counts[..], o.counts[..];
      var ototal, i := 0, 0;
      while i < o.counts.Length
        modifies counts
        invariant 0 <= i <= o.counts.Length && oc == o.counts[..]
        invariant ototal == PrefixSum(oc, i)
        invariant forall j: nat | j < counts.Length :: counts[j] == start[j] + if j < i then oc[j] else 0
      {
        counts[i] := counts[i] + o.counts[i];
        ototal := ototal + o.counts[i];
        i := i + 1;
      }
      totalCount := totalCount + ototal;
    }

    /** Records count occurrences of the value of slot i of geometry g. */
    method RecordSlot(g: Geometry, i: nat, count: int) returns (ok: bool)
      requires Valid() && g.Fits() && g.ValueFor(i) < INT64_LIMIT
      requires g.ValueFor(i) <= geo.ValueFor(counts.Length)
      modifies this, counts
      ensures Valid() && geo == old(geo) && counts == old(counts) && cfg == old(cfg)
      ensures ok <==> g.ValueFor(i) < geo.ValueFor(counts.Length)
      ensures ok ==> totalCount == old(totalCount) + count
      ensures ok ==> Counted(counts[..], old(counts[..]), geo.CountsIndex(g.ValueFor(i)), count)
    {
      LandsAt(geo, counts.Length, g.ValueFor(i));
      ok := RecordN(g.ValueFor(i), count);
    }

    /** The slow path: each slot of o is recorded again by its value. */
    method RecordSlots(o: Hist) returns (ok: bool)
      requires Valid() && o.Valid() && o.Consistent() && Sized(o.geo, o.counts.Length)
      requires o != this && o.counts != counts
      requires LandUpTo(geo.ValueFor(counts.Length), o.geo, o.counts[..])
      modifies this, counts
      ensures Valid() && geo == old(geo)
      ensures counts == old(counts) && cfg == old(cfg)
      ensures ok <==> LandInside(geo.ValueFor(counts.Length), o.geo, o.counts[..])
      ensures ok ==> totalCount == old(totalCount) + Total(o.counts[..])
      ensures ok ==> Landing(counts[..], old(counts[..]), geo, o.geo, o.counts[..], o.counts.Length)
    {
      hide Landing, Counted, Sized, At, Recordable, Pow2, ShiftLeft, ShiftRight, BitLen;
      ghost var start, oc, g := counts[..], o.counts[..], o.geo;
      var i := 0;
      NoneLanded(start, geo, g, oc);
      while i < o.counts.Length
        invariant 0 <= i <= o.counts.Length && Valid() && geo == old(geo)
        invariant counts == old(counts) && cfg == old(cfg)
        invariant o.counts != counts && oc == o.counts[..]
        invariant totalCount == old(totalCount) + PrefixSum(oc, i)
        invariant Landing(counts[..], start, geo, g, oc, i)
        invariant forall j: nat | j < i && oc[j] > 0 :: g.ValueFor(j) < geo.ValueFor(counts.Length)
      {
        ghost var before := counts[..];
        SizedSlot(g, o.counts.Length, i);
        if o.counts[i] > 0 {
          var recorded := RecordSlot(o.geo, i, o.counts[i]);
          if !recorded {
            return false;
          }
        }
        LandsNext(counts[..], before, start, geo, g, oc, i);
        i := i + 1;
      }
      return true;
    }

    /** Takes o out of this histogram. False is a panic, which is met at the first slot whose value
        is counted fewer times here than are to be taken. */
    method Sub(o: Hist) returns (ok: bool)
      requires Valid() && o.Valid() && o.Consistent()
      requires o != this && o.counts != counts
      modifies this, counts
      ensures Valid() && geo == old(geo)
      ensures counts == old(counts) || fresh(counts)
      ensures Sized(o.geo, o.counts.Length) && o.counts.Length > 0
      ensures var m := MaxOf(o.geo, o.counts[..], Total(o.counts[..]));
        var reached := old(cfg.autoResize) || m <= geo.ValueFor(old(counts.Length)) - 1;
        ok <==> reached && CoversLanded(old(counts[..]), geo, o.geo, o.counts[..], o.counts.Length)
      ensures geo == o.geo && old(Readable()) ==> Readable()
      ensures geo == o.geo ==>
        var reached := old(cfg.autoResize) || Within(old(counts.Length), o.counts[..]);
        (ok <==> reached && Covers(old(counts[..]), o.counts[..]))
      ensures ok ==> totalCount == old(totalCount) - Total(o.counts[..]) && old(counts.Length) <= counts.Length
      ensures ok ==> Landing(old(counts[..]), counts[..], geo, o.geo, o.counts[..], o.counts.Length)
      ensures geo == o.geo && ok ==>
        forall j: nat :: At(counts[..], j) == At(old(counts[..]), j) - At(o.counts[..], j)
    {
      hide Mergeable, LandInside, LandUpTo, Within, Landed, Covers, MaxOf, Pow2, ShiftLeft, ShiftRight, BitLen, BitAnd;
      ghost var start := counts[..];
      o.ValidFacts();
      ok := Reach(o);
      if geo == o.geo {
        CoversSame(start, geo, o.counts[..]);
        LandedSame(geo, o.counts[..]);
      }
      if ok {
        ghost var grown := counts[..];
        ok := UnrecordSlots(o);
        SameCovered(start, grown, geo, o.geo, o.counts[..]);
      }
    }

    /** The count of the value of slot i of geometry g. */
    method CountOfSlot(g: Geometry, i: nat) returns (count: int)
      requires Valid() && g.Fits() && g.ValueFor(i) < INT64_LIMIT
      ensures 0 <= geo.CountsIndex(g.ValueFor(i)) && count == At(counts[..], geo.CountsIndex(g.ValueFor(i)))
    {
      SlotEnds(geo, g.ValueFor(i));
      var here := Val(g.ValueFor(i));
      count := here.count;
    }

    method UnrecordSlots(o: Hist) returns (ok: bool)
      requires Valid() && o.Valid() && o.Consistent() && Sized(o.geo, o.counts.Length)
      requires o != this && o.counts != counts
      modifies this, counts
      ensures Valid() && geo == old(geo)
      ensures counts == old(counts) && cfg == old(cfg)
      ensures ok <==> CoversLanded(old(counts[..]), geo, o.geo, o.counts[..], o.counts.Length)
      ensures ok ==> totalCount == old(totalCount) - Total(o.counts[..])
      ensures ok ==> Landing(old(counts[..]), counts[..], geo, o.geo, o.counts[..], o.counts.Length)
    {
      hide Landing, Counted, CoversLanded, Sized, Pow2, ShiftLeft, ShiftRight, BitLen;
      ghost var start, oc, g := counts[..], o.counts[..], o.geo;
      var i := 0;
      NoneLanded(start, geo, g, oc);
      CoversNone(start, geo, g, oc);
      while i < o.counts.Length
        invariant 0 <= i <= o.counts.Length && Valid() && geo == old(geo)
        invariant counts == old(counts) && cfg == old(cfg)
        invariant o.counts != counts && oc == o.counts[..]
        invariant totalCount == old(totalCount) - PrefixSum(oc, i)
        invariant Landing(start, counts[..], geo, g, oc, i)
        invariant CoversLanded(start, geo, g, oc, i)
      {
        ghost var before := counts[..];
        SizedSlot(g, o.counts.Length, i);
        if o.counts[i] > 0 {
          var here := CountOfSlot(o.geo, i);
          CoversNext(start, before, geo, g, oc, i, geo.CountsIndex(g.ValueFor(i)));
          if here < o.counts[i] {
            return false;
          }
          IndexBelowIff(geo, g.ValueFor(i), counts.Length);
          var recorded := RecordSlot(o.geo, i, -o.counts[i]);
          if !recorded {
            return false;
          }
        } else {
          CoversSkip(start, geo, g, oc, i);
        }
        TakenNext(counts[..], before, start, geo, g, oc, i);
        i := i + 1;
      }
      return true;
    }
  }

  /** A histogram of a configuration; none where Init panics, or does not return. */
  method WithConfig(cfg: Config) returns (h: Hist?)
    ensures cfg.lowestDiscernible < 1 || cfg.sigFigs < 0 || cfg.sigFigs > 5 ==> h == null
    ensures cfg.highestTrackable < 2 * cfg.lowestDiscernible && !cfg.autoResize ==> h == null
    ensures
      && cfg.lowestDiscernible >= 1 && 0 <= cfg.sigFigs <= 5
      && (cfg.highestTrackable >= 2 * cfg.lowestDiscernible || cfg.autoResize) ==>
        (h != null <==> GeometryOf(cfg).Fits())
    ensures h != null ==> cfg.Accepted() && h.cfg == cfg.Normalised() && h.totalCount == 0
    ensures h != null ==> fresh(h) && fresh(h.counts) && h.Valid() && h.counts[..] == seq(h.counts.Length, _ => 0)
  {
    if !cfg.Accepted() {
      return null;
    }
    h := new Hist(cfg);
  }

  /** Subtracting what was just added never fails and restores every count. */
  method SubAfterAdd(h: Hist, o: Hist) returns (added: bool, subtracted: bool)
    requires h.Valid() && h.Consistent() && o.Valid() && o.Consistent() && h.geo == o.geo
    requires o != h && o.counts != h.counts
    modifies h, h.counts
    ensures added ==> subtracted
    ensures added ==> h.totalCount == old(h.totalCount)
    ensures added ==> forall i: nat :: At(h.counts[..], i) == At(old(h.counts[..]), i)
  {
    ghost var before := h.counts[..];
    subtracted := false;
    added := h.Add(o);
    if added {
      assert forall i: nat :: At(before, i) >= 0;
      subtracted := h.Sub(o);
    }
  }

  /** Merging histograms of recorded values, of any two geometries, leaves one of the values of both;
      those of o as o knows them, rounded down to the low ends of its slots. */
  method AddRecorded(h: Hist, o: Hist, ghost values: seq<int>, ghost added: seq<int>) returns (ok: bool)
    requires h.Valid() && h.Consistent() && Represents(h.geo, h.counts[..], values)
    requires o.Valid() && o.Consistent() && Represents(o.geo, o.counts[..], added)
    requires o != h && o.counts != h.counts
    modifies h, h.counts
    ensures h.Valid() && h.geo == old(h.geo)
    ensures ok ==> Fit(added) && Represents(h.geo, h.counts[..], values + RoundedDown(o.geo, added))
    ensures ok ==> h.totalCount == |values| + |added|
  {
    hide Landing, LandInside, Mergeable, Represents;
    TotalCounts(h.geo, h.counts[..], values);
    TotalCounts(o.geo, o.counts[..], added);
    ghost var start := h.counts[..];
    ok := h.Add(o);
    if ok { LandingAdds(h.geo, start, h.counts[..], values, o.geo, o.counts[..], added); }
  }

  /** And taking those of o out again leaves the others. */
  method SubRecorded(h: Hist, o: Hist, ghost values: seq<int>, ghost taken: seq<int>) returns (ok: bool)
    requires h.Valid() && o.Valid() && o.Consistent() && Represents(o.geo, o.counts[..], taken)
    requires Fit(taken) && Represents(h.geo, h.counts[..], values + RoundedDown(o.geo, taken))
    requires o != h && o.counts != h.counts
    modifies h, h.counts
    ensures h.Valid() && h.geo == old(h.geo)
    ensures ok ==> Represents(h.geo, h.counts[..], values)
  {
    hide Landing, LandInside, Mergeable, Represents, CoversLanded;
    ghost var start := h.counts[..];
    ok := h.Sub(o);
    if ok { LandingTakes(h.geo, start, h.counts[..], values, o.geo, o.counts[..], taken); }
  }

  /** The slots of a histogram, before any growing, hold all the values. */
  ghost predicate InRange(g: Geometry, len: nat, values: seq<Int64>) {
    forall i | 0 <= i < |values| :: values[i] >= 0 && g.CountsIndex(values[i]) < len
  }

  lemma NothingRecorded(h: Hist)
    requires h.Valid() && h.Consistent() && h.totalCount == 0
    ensures Represents(h.geo, h.counts[..], [])
  {
    LastCounted(h.counts[..], 0);
  }

  /** Recording a sequence of values leaves a histogram that stands for exactly them; that never
      fails for values in range. */
  method RecordEach(h: Hist, values: seq<Int64>) returns (ok: bool)
    requires h.Valid() && h.Consistent() && h.totalCount == 0
    modifies h, h.counts
    ensures h.Valid() && h.geo == old(h.geo)
    ensures ok ==> Represents(h.geo, h.counts[..], values) && h.totalCount == |values|
    ensures InRange(h.geo, old(h.counts.Length), values) ==> ok
  {
    hide Represents;
    var i := 0;
    NothingRecorded(h);
    assert values[..0] == [];
    while i < |values|
      invariant 0 <= i <= |values| && h.Valid() && h.geo == old(h.geo)
      invariant h.counts == old(h.counts) || fresh(h.counts)
      invariant InRange(h.geo, old(h.counts.Length), values) ==> h.counts == old(h.counts)
      invariant Represents(h.geo, h.counts[..], values[..i]) && h.totalCount == i
    {
      ghost var c := h.counts[..];
      if values[i] >= 0 { ValueForIndexOf(h.geo, values[i]); }
      var recorded := h.RecordN(values[i], 1);
      if !recorded {
        return false;
      }
      RecordingAdds(h.geo, c, values[..i], h.counts.Length, values[i]);
      assert values[..i + 1] == values[..i] + [values[i]];
      i := i + 1;
    }
    assert values[..i] == values;
    return true;
  }

  /** r is what stands for x among values in a histogram. Its value is the top of the range of x, or
      the bottom for percentile 0; so it exceeds x by less than a unit, or by less than the fraction
      that the significant figures promise. It counts the values in that range, and those up to it,
      and says which share of all these are. */
  ghost predicate StandsFor(g: Geometry, sigFigs: nat, p: real, values: seq<int>, x: Int64, r: HistVal) {
    && r.value == (if p == 0.0 then g.LowestEquiv(x) else g.HighestEquiv(x))
    && (p != 0.0 ==>
          0 <= r.value - x && (r.value - x < Pow2(g.unitMag) || (r.value - x) * Pow10(sigFigs) < x))
    && r.cumCount == CountBelow(values, g.HighestEquiv(x) + 1)
    && r.count == r.cumCount - CountBelow(values, g.LowestEquiv(x))
    && r.percentile == Share(r.cumCount, |values|)
  }

  /** Counting from 0, j is the place of rank p among n: its rank, counting from 1, is the integer
      nearest to p hundredths of n, but at least 1 and at most n. */
  ghost predicate AtRank(p: real, n: nat, j: nat) {
    if p >= 100.0 then j + 1 == n
    else if p * n as real < 50.0 then j == 0
    else 100.0 * (j + 1) as real - 50.0 <= p * n as real < 100.0 * (j + 1) as real + 50.0
  }

  lemma NearestIndex(p: real, n: nat, j: nat)
    requires n > 0 && j + 1 == Rank(Min(p, 100.0), n)
    ensures AtRank(p, n, j)
  {
    hide Rank;
    RankIsNearest(p, n);
    RankInRange(100.0, n);
  }

  /** The value of the rank of a percentile, and what is reported of it. */
  lemma PercentileStandsFor(g: Geometry, c: seq<int>, values: seq<int>, p: real, sorted: seq<int>, sigFigs: nat)
    returns (j: nat)
    requires Sized(g, |c|) && Represents(g, c, values) && values != []
    requires Pow10(sigFigs) <= Pow2(g.subHalfCountMag)
    requires Sorted(sorted) && multiset(values) == multiset(sorted)
    ensures j < |sorted| && 0 <= sorted[j] < INT64_LIMIT && j + 1 == Rank(Min(p, 100.0), |values|)
    ensures StandsFor(g, sigFigs, p, values, sorted[j], Percentile(g, c, Total(c), p))
  {
    hide Rank, Represents, Sorted, Percentile, Sized, Share;
    var k := Rank(Min(p, 100.0), |values|);
    SameSize(values, sorted);
    RankInRange(Min(p, 100.0), |values|);
    j := k - 1;
    KthOfSorted(values, sorted, k);
    PercentileIsRanked(g, c, values, p, sorted[j], sigFigs);
    PercentileReports(g, c, values, p, sorted[j]);
  }

  /** A percentile of recorded values stands for the value whose rank among them is nearest to p
      hundredths of their number, counting from 1. */
  method PercentileOfRecorded(h: Hist, values: seq<Int64>, p: real, ghost sorted: seq<int>)
    returns (ok: bool, r: HistVal, ghost j: nat)
    requires h.Valid() && h.Consistent() && h.totalCount == 0 && values != []
    requires Sorted(sorted) && multiset(values) == multiset(sorted)
    modifies h, h.counts
    ensures h.geo == old(h.geo) && (InRange(h.geo, old(h.counts.Length), values) ==> ok)
    ensures ok ==> AtRank(p, |values|, j) && j < |sorted| && 0 <= sorted[j] < INT64_LIMIT
    ensures ok ==> StandsFor(h.geo, old(h.cfg.sigFigs), p, values, sorted[j], r)
  {
    ghost var sigFigs := h.cfg.sigFigs;
    ResolutionSuffices(h.cfg);
    hide Rank, Represents, Sorted, Percentile, StandsFor, GeometryOf, InRange, Share, CountBelow, AtRank;
    j := 0;
    ok := RecordEach(h, values);
    if !ok {
      return false, HistVal(0, 0, 0, 0.0), j;
    }
    r := h.PercentileVal(p);
    TotalCounts(h.geo, h.counts[..], values);
    j := PercentileStandsFor(h.geo, h.counts[..], values, p, sorted, sigFigs);
    SameSize(values, sorted);
    NearestIndex(p, |values|, j);
  }

  /** What is said of a value by a histogram of recorded values: how many lie in its range, how many
      do not exceed that, and which part of all these are. */
  method ValOfRecorded(h: Hist, ghost values: seq<int>, v: Int64) returns (r: HistVal)
    requires h.Valid() && h.totalCount == |values| && Represents(h.geo, h.counts[..], values)
    ensures v < 0 ==> r == HistVal(v, 0, 0, 0.0)
    ensures v >= h.geo.ValueFor(h.counts.Length) ==> r == HistVal(v, 0, |values|, 100.0)
    ensures 0 <= v < h.geo.ValueFor(h.counts.Length) ==>
      var upTo := CountBelow(values, h.geo.HighestEquiv(v) + 1);
      && r.value == h.geo.HighestEquiv(v) && r.cumCount == upTo
      && r.count == upTo - CountBelow(values, h.geo.LowestEquiv(v))
      && r.percentile == Share(upTo, |values|)
  {
    hide Pow2, ShiftLeft, ShiftRight, BitLen, BitAnd, Share;
    r := h.Val(v);
    if v >= 0 {
      SlotEnds(h.geo, v);
      IndexBelowIff(h.geo, v, h.counts.Length);
      if v < h.geo.ValueFor(h.counts.Length) {
        PrefixSumCounts(h.geo, h.counts[..], values, h.geo.CountsIndex(v) + 1);
      }
    }
  }
}
