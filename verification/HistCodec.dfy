/** The payload of an encoded histogram: counts and runs of zeros, one code each. */
module HistCodec {
  import opened Bits
  import opened Common
  import opened HistGeometry
  import opened HistCounts
  import opened HistGrowth
  import opened HdrHist
  import opened ZigZag

  const MAX_INT32 := 0x7fff_ffff

  /** The length of the run of zeros of c from s on, looking no further than n. */
  function ZeroRun(c: seq<int>, s: nat, n: nat): (r: nat)
    requires s <= n <= |c|
    ensures s + r <= n && forall j | s <= j < s + r :: c[j] == 0
    decreases n - s
  {
    if s < n && c[s] == 0 then 1 + ZeroRun(c, s + 1, n) else 0
  }

  ghost predicate Encodable(c: seq<int>) {
    |c| < INT64_LIMIT && forall j | 0 <= j < |c| :: 0 <= c[j] < INT64_LIMIT
  }

  /** What is written next at slot s, and how many slots it stands for: a run of two or
      more zeros is written as its negated length. */
  function Token(c: seq<int>, s: nat, n: nat): (t: (Int64, nat))
    requires s < n <= |c| && Encodable(c)
    ensures t.1 >= 1 && s + t.1 <= n
    ensures forall j | s + 1 <= j < s + t.1 :: c[j] == 0
    ensures t.0 >= 0 ==> t.0 == c[s] && t.1 == 1
    ensures t.0 < 0 ==> t.0 + t.1 == 0 && c[s] == 0
  {
    var run: int := ZeroRun(c, s, n);
    if run > 1 then (-run, run) else (c[s], 1)
  }

  /** The payload for the slots s to n. */
  function Payload(c: seq<int>, s: nat, n: nat): seq<Byte>
    requires s <= n <= |c| && Encodable(c)
    decreases n - s
  {
    if s == n then []
    else
      var (x, k) := Token(c, s, n);
      Encoded(x) + Payload(c, s + k, n)
  }

  datatype Error = InvalidCount | TooManyZeros | NotWritten | OutOfRange | BadConfig | TooShort

  datatype Filled = Filled(counts: seq<int>, total: int, desti: nat) | Failed(error: Error)

  /** One thing read: a count, or a run of zeros. */
  datatype Item = Count(count: int, length: nat) | Zeros(run: nat, length: nat) | Bad(error: Error)

  /** The word size that stands for ZigZag codes, as version 2 has them; the cookie of version 1
      has an even size below 16. */
  const ZIGZAG := -1

  lemma ByteRoom(k: nat)
    ensures 256 * Pow2(8 * k) == Pow2(8 * (k + 1))
  {
    SmallPowers();
    ShiftLeftPow2(8, 8 * k);
    ShiftLeftIsProduct(0x100, 8 * k);
    assert 8 + 8 * k == 8 * (k + 1);
  }

  /** The bytes of a word, most significant first. */
  function BigEndian(b: seq<Byte>): (n: nat)
    ensures n < Pow2(8 * |b|)
  {
    if b == [] then 0
    else
      var last := |b| - 1;
      ByteRoom(last);
      256 * BigEndian(b[..last]) + b[last]
  }

  function WordValue(b: seq<Byte>): Int64
    requires |b| <= 8
  {
    Pow2Order(8 * |b|, 64);
    Pow2Facts();
    Signed(BigEndian(b))
  }

  /** A negative code is the length of a run of zeros; but the least int64 stays negative when it
      is negated, and is taken for a count. */
  function ItemAt(b: seq<Byte>, wordSize: int): (item: Item)
    ensures item.Count? ==> item.length <= |b| && (wordSize != 0 ==> item.length > 0)
    ensures item.Zeros? ==> 0 < item.length <= |b| && item.run > 0
  {
    if wordSize < 0 then
      match DecodedFrom(b)
      case Incomplete => Bad(InvalidCount)
      case Decoded(count, n) =>
        if -INT64_LIMIT < count < 0 then if -count > MAX_INT32 then Bad(TooManyZeros) else Zeros(-count, n)
        else Count(count, n)
    else if wordSize > 8 || |b| < wordSize then Bad(NotWritten)
    else Count(WordValue(b[..wordSize]), wordSize)
  }

  /** Decodes buf from pos to payloadLen on, filling counts from desti on. OutOfRange is
      the run-time panic of an index past the end, which ends a loop over words of size zero. */
  function Fill(buf: seq<Byte>, pos: nat, payloadLen: int, wordSize: int, counts: seq<int>, total: int, desti: nat)
    : Filled
    requires payloadLen <= |buf|
    decreases payloadLen - pos, |counts| - desti
  {
    if pos >= payloadLen then Filled(counts, total, desti)
    else
      match ItemAt(buf[pos..], wordSize)
      case Bad(error) => Failed(error)
      case Zeros(run, n) => Fill(buf, pos + n, payloadLen, wordSize, counts, total, desti + run)
      case Count(count, n) =>
        if desti >= |counts| then Failed(OutOfRange)
        else Fill(buf, pos + n, payloadLen, wordSize, counts[desti := count], total + count, desti + 1)
  }

  lemma DecodeHead(buf: seq<Byte>, pos: nat, code: seq<Byte>, rest: seq<Byte>, x: Int64)
    requires pos <= |buf| && buf[pos..] == Encoded(x) + rest && Fold(x) < SMALL
    ensures DecodedFrom(buf[pos..]) == Decoded(x, |Encoded(x)|)
    ensures pos + |Encoded(x)| <= |buf| && buf[pos + |Encoded(x)|..] == rest
  {
    ZigZagRoundTrip(x, rest);
    assert buf[pos + |Encoded(x)|..] == buf[pos..][|Encoded(x)|..];
  }

  lemma {:induction false} PrefixSumZeros(c: seq<int>, a: nat, b: nat)
    requires a <= b <= |c| && forall j | a <= j < b :: c[j] == 0
    ensures PrefixSum(c, b) == PrefixSum(c, a)
  {
    if a < b { PrefixSumZeros(c, a, b - 1); }
  }

  /** d holds the first s slots of c and is zero from there on. */
  ghost predicate HoldsUpTo(d: seq<int>, c: seq<int>, s: nat) {
    |d| == |c| && s <= |c| && forall j | 0 <= j < |c| :: d[j] == if j < s then c[j] else 0
  }

  /** Counts small enough for eight bytes each, in an array a 32-bit index can reach. */
  ghost predicate Compact(c: seq<int>) {
    && |c| <= MAX_INT32
    && forall j | 0 <= j < |c| :: 0 <= c[j] < 0x80_0000_0000_0000
  }

  lemma TokenIsSmall(c: seq<int>, s: nat, n: nat)
    requires s < n <= |c| && Encodable(c) && Compact(c)
    ensures Fold(Token(c, s, n).0) < SMALL && |c| <= MAX_INT32
    ensures PrefixSum(c, s + Token(c, s, n).1) == PrefixSum(c, s) + c[s]
  {
    PrefixSumZeros(c, s + 1, s + Token(c, s, n).1);
  }

  lemma HoldsNext(c: seq<int>, s: nat, n: nat, d: seq<int>)
    requires s < n <= |c| && Encodable(c) && HoldsUpTo(d, c, s)
    ensures |d| == |c| && c[s] >= 0
    ensures var (x, k) := Token(c, s, n); HoldsUpTo(if x < 0 then d else d[s := c[s]], c, s + k)
  {
  }

  lemma FillStep(buf: seq<Byte>, pos: nat, c: seq<int>, s: nat, n: nat, d: seq<int>, total: int)
    requires s < n <= |c| && Encodable(c) && Compact(c)
    requires pos <= |buf| && buf[pos..] == Payload(c, s, n)
    requires HoldsUpTo(d, c, s)
    ensures var (x, k) := Token(c, s, n); var next := pos + |Encoded(x)|;
      var d' := if x < 0 then d else d[s := c[s]];
      && next <= |buf| && buf[next..] == Payload(c, s + k, n) && HoldsUpTo(d', c, s + k)
      && Fill(buf, pos, |buf|, ZIGZAG, d, total, s) == Fill(buf, next, |buf|, ZIGZAG, d', total + c[s], s + k)
  {
    hide PrefixSum, Compact, HoldsUpTo;
    var (x, k) := Token(c, s, n);
    TokenIsSmall(c, s, n);
    HoldsNext(c, s, n, d);
    DecodeHead(buf, pos, Encoded(x), Payload(c, s + k, n), x);
    assert pos < |buf| by { assert |buf[pos..]| >= 1; }
  }

  /** What one code of at most eight bytes is taken for. */
  lemma ItemOfCode(x: Int64, rest: seq<Byte>)
    requires Fold(x) < SMALL
    ensures ItemAt(Encoded(x) + rest, ZIGZAG) ==
      if x >= 0 then Count(x, |Encoded(x)|)
      else if x < -0x7fff_ffff then Bad(TooManyZeros)
      else Zeros(-x, |Encoded(x)|)
  {
    hide Encoded, DecodedFrom;
    ZigZagRoundTrip(x, rest);
  }

  lemma CodeNotEmpty(x: Int64)
    ensures |Encoded(x)| >= 1
  {
  }

  /** Reading counts into fewer slots than were written is the panic of an index past the end. */
  lemma {:induction false} TooFewSlots(buf: seq<Byte>, pos: nat, c: seq<int>, s: nat, n: nat, d: seq<int>, total: int)
    requires s < n <= |c| && Encodable(c) && Compact(c) && c[n - 1] > 0 && |d| < n
    requires pos <= |buf| && buf[pos..] == Payload(c, s, n)
    ensures Fill(buf, pos, |buf|, ZIGZAG, d, total, s) == Failed(OutOfRange)
    decreases n - s
  {
    hide PrefixSum, Compact, Encoded, DecodedFrom;
    var (x, k) := Token(c, s, n);
    TokenIsSmall(c, s, n);
    DecodeHead(buf, pos, Encoded(x), Payload(c, s + k, n), x);
    assert pos < |buf| by { assert |buf[pos..]| >= 1 by { CodeNotEmpty(x); } }
    if x < 0 {
      TooFewSlots(buf, pos + |Encoded(x)|, c, s + k, n, d, total);
    } else if s < |d| {
      TooFewSlots(buf, pos + |Encoded(x)|, c, s + 1, n, d[s := x], total + x);
    }
  }

  lemma FillEnds(buf: seq<Byte>, pos: nat, d: seq<int>, total: int, s: nat)
    requires pos <= |buf| && buf[pos..] == []
    ensures Fill(buf, pos, |buf|, ZIGZAG, d, total, s) == Filled(d, total, s)
  {
    assert |buf[pos..]| == 0;
  }

  lemma PayloadEnds(c: seq<int>, n: nat)
    requires n <= |c| && Encodable(c)
    ensures Payload(c, n, n) == []
  {
  }

  /** Reading the payload of c from slot s on, into counts that already hold the slots
      before s, restores the rest. */
  lemma {:induction false} FillPayload(buf: seq<Byte>, pos: nat, c: seq<int>, s: nat, n: nat, d: seq<int>)
    requires s <= n <= |c| && Encodable(c) && Compact(c)
    requires pos <= |buf| && buf[pos..] == Payload(c, s, n)
    requires HoldsUpTo(d, c, s)
    ensures var r := Fill(buf, pos, |buf|, ZIGZAG, d, PrefixSum(c, s), s);
      r.Filled? && r.total == PrefixSum(c, n) && r.desti == n && HoldsUpTo(r.counts, c, n)
    decreases n - s
  {
    hide Encoded, PrefixSum, Compact, HoldsUpTo, Fill, Payload;
    if s < n {
      var (x, k) := Token(c, s, n);
      TokenIsSmall(c, s, n);
      HoldsNext(c, s, n, d);
      FillStep(buf, pos, c, s, n, d, PrefixSum(c, s));
      FillPayload(buf, pos + |Encoded(x)|, c, s + k, n, if x < 0 then d else d[s := c[s]]);
    } else {
      PayloadEnds(c, n);
      FillEnds(buf, pos, d, PrefixSum(c, s), s);
    }
  }

  /** What an encoded histogram carries: the payload and the three configuration fields. */
  datatype Image = Image(payload: seq<Byte>, sigFigs: int, lowestDiscernible: Int64, highestTrackable: Int64)

  lemma PayloadFrom(c: seq<int>, s: nat, n: nat)
    requires s < n <= |c| && Encodable(c)
    ensures var (x, k) := Token(c, s, n); Payload(c, s, n) == Encoded(x) + Payload(c, s + k, n)
  {
  }

  lemma {:induction false} ZeroRunIs(c: seq<int>, s: nat, n: nat, k: nat)
    requires s + k <= n <= |c| && forall j | s <= j < s + k :: c[j] == 0
    requires s + k == n || c[s + k] != 0
    ensures ZeroRun(c, s, n) == k
    decreases k
  {
    if k == 0 {
    } else {
      ZeroRunIs(c, s + 1, n, k - 1);
    }
  }

  /** A slot that counts something is written as its count. */
  lemma CountIsWritten(c: seq<int>, s: nat, n: nat)
    requires s < n <= |c| && Encodable(c) && c[s] > 0
    ensures Payload(c, s, n) == Encoded(c[s]) + Payload(c, s + 1, n)
  {
    hide Encoded, ZeroRun, Payload;
    PayloadFrom(c, s, n);
    ZeroRunIs(c, s, n, 0);
  }

  lemma CodeOfZero()
    ensures Encoded(0) == [0]
  {
  }

  /** A zero between such slots is written as one byte of zero. */
  lemma LoneZeroIsWritten(c: seq<int>, s: nat, n: nat)
    requires s < n <= |c| && Encodable(c) && c[s] == 0 && (s + 1 == n || c[s + 1] != 0)
    ensures Payload(c, s, n) == [0] + Payload(c, s + 1, n)
  {
    hide Encoded, ZeroRun, Payload;
    PayloadFrom(c, s, n);
    ZeroRunIs(c, s, n, 1);
    CodeOfZero();
  }

  /** And a longer run of zeros as its negated length, the whole of it. */
  lemma RunIsWritten(c: seq<int>, s: nat, n: nat, k: int)
    requires k >= 2 && s + k <= n <= |c| && Encodable(c) && forall j | s <= j < s + k :: c[j] == 0
    requires s + k == n || c[s + k] != 0
    ensures -INT64_LIMIT <= -k && Payload(c, s, n) == Encoded(-k) + Payload(c, s + k, n)
  {
    hide Encoded, ZeroRun, Payload;
    PayloadFrom(c, s, n);
    ZeroRunIs(c, s, n, k);
  }

  method FillBuffer(h: Hist, n: nat) returns (buf: seq<Byte>)
    requires n <= h.counts.Length && Encodable(h.counts[..])
    ensures buf == Payload(h.counts[..], 0, n)
  {
    hide Encoded, PrefixSum, Encodable, Payload;
    buf := [];
    var srci := 0;
    ghost var c := h.counts[..];
    while srci < n
      invariant 0 <= srci <= n
      invariant Payload(c, 0, n) == buf + Payload(c, srci, n)
    {
      ghost var s, before := srci, buf;
      ghost var token := Token(c, s, n);
      var count := h.counts[srci];
      srci := srci + 1;
      var zerosCount := 0;
      if count == 0 {
        zerosCount := 1;
        while srci < n && h.counts[srci] == 0
          invariant s + 1 <= srci <= n && zerosCount == srci - s
          invariant ZeroRun(c, s, n) == zerosCount + ZeroRun(c, srci, n)
        {
          zerosCount := zerosCount + 1;
          srci := srci + 1;
        }
      }
      var code;
      if zerosCount > 1 {
        code := EncodeZigZag(-zerosCount);
      } else {
        code := EncodeZigZag(count);
      }
      buf := buf + code;
      PayloadFrom(c, s, n);
      Regroup(before, code, Payload(c, srci, n));
    }
    PayloadEnds(c, n);
    assert buf + [] == buf;
  }

  /** The number of slots up to and including that of the maximum. */
  function ImportantLen(g: Geometry, c: seq<int>): (n: nat)
    requires Sized(g, |c|) && NonNegative(c) && |c| > 0
    ensures 1 <= n <= |c| && forall j | n <= j < |c| :: c[j] == 0
    ensures n > 1 ==> c[n - 1] > 0
  {
    MaxIsLastSlot(g, c);
    LastCounted(c, Total(c));
    g.CountsIndex(MaxOf(g, c, Total(c))) + 1
  }

  /** Encodes the slots up to the one of the maximum. */
  method EncodeInto(h: Hist) returns (image: Image)
    requires h.Valid() && h.Consistent() && Encodable(h.counts[..])
    ensures Sized(h.geo, h.counts.Length)
    ensures h.counts.Length > 0
    ensures var n := ImportantLen(h.geo, h.counts[..]);
      && n <= h.counts.Length
      && image == Image(Payload(h.counts[..], 0, n), h.cfg.sigFigs, h.cfg.lowestDiscernible, h.cfg.highestTrackable)
  {
    hide Payload, MaxOf, Total, Pow2, ShiftLeft, ShiftRight, BitLen, BitAnd;
    h.ValidFacts();
    MaxIsLastSlot(h.geo, h.counts[..]);
    var max := h.Max();
    var importantLen := h.geo.CountsIndex(max) + 1;
    var payload := FillBuffer(h, importantLen);
    image := Image(payload, h.cfg.sigFigs, h.cfg.lowestDiscernible, h.cfg.highestTrackable);
  }

  lemma EightMore(x: nat, k: nat)
    ensures ShiftLeft(x, k + 8) == 256 * ShiftLeft(x, k)
  {
    hide ShiftLeft, Pow2;
    SmallPowers();
    ShiftLeftTwice(x, k, 8);
    ShiftLeftIsProduct(ShiftLeft(x, k), 8);
  }

  /** The first byte counts most. */
  lemma {:induction false} BigEndianFirst(b: seq<Byte>)
    requires b != []
    ensures BigEndian(b) == ShiftLeft(b[0], 8 * (|b| - 1)) + BigEndian(b[1..])
  {
    var n := |b| - 1;
    if n == 0 {
      assert b[1..] == [] && b[..0] == [];
    } else {
      BigEndianFirst(b[..n]);
      assert b[..n][1..] == b[1..][..n - 1] && b[1..][n - 1] == b[n];
      EightMore(b[0], 8 * (n - 1));
    }
  }

  lemma BigEndianNext(b: seq<Byte>, k: nat)
    requires k < |b|
    ensures BigEndian(b[..k + 1]) == 256 * BigEndian(b[..k]) + b[k]
  {
    assert b[..k + 1][..k] == b[..k];
  }

  /** The bytes of a word, or none if it is too large or cut off. */
  method DecodeIntSize(b: seq<Byte>, size: int) returns (r: Option<Int64>)
    ensures r == if size < 0 || 8 < size || |b| < size then None else Some(WordValue(b[..size]))
  {
    if size < 0 || 8 < size {
      return None;
    }
    if |b| < size {
      return None;
    }
    var res: nat := 0;
    for i := 0 to size
      invariant res == BigEndian(b[..i])
    {
      BigEndianNext(b, i);
      res := 256 * res + b[i];
    }
    Pow2Order(8 * size, 64);
    Pow2Facts();
    return Some(Signed(res));
  }

  /** What comes next in the buffer: a code, or a word of that size. */
  method ReadItem(b: seq<Byte>, wordSize: int) returns (item: Item)
    ensures item == ItemAt(b, wordSize)
  {
    hide WordValue, DecodedFrom;
    if wordSize >= 0 {
      var word := DecodeIntSize(b, wordSize);
      return if word.None? then Bad(NotWritten) else Count(word.value, wordSize);
    }
    var decoded := DecodeZigZag(b);
    if decoded.Incomplete? {
      return Bad(InvalidCount);
    }
    var count := decoded.value;
    if -INT64_LIMIT < count < 0 {
      var zc := -count;
      return if zc > MAX_INT32 then Bad(TooManyZeros) else Zeros(zc, decoded.length);
    }
    return Count(count, decoded.length);
  }

  method FillCountsFromBuf(h: Hist, buf: seq<Byte>, payloadLen: int, wordSize: int) returns (r: Filled)
    requires payloadLen <= |buf|
    modifies h`totalCount, h.counts
    ensures r == Fill(buf, 0, payloadLen, wordSize, old(h.counts[..]), old(h.totalCount), 0)
    ensures r.Filled? ==> h.counts[..] == r.counts && h.totalCount == r.total
  {
    var desti, pos := 0, 0;
    ghost var result := Fill(buf, 0, payloadLen, wordSize, h.counts[..], h.totalCount, 0);
    while pos < payloadLen
      invariant pos >= 0 && desti >= 0
      invariant Fill(buf, pos, payloadLen, wordSize, h.counts[..], h.totalCount, desti) == result
      decreases payloadLen - pos, h.counts.Length - desti
    {
      hide ItemAt;
      var item := ReadItem(buf[pos..], wordSize);
      match item {
        case Bad(error) =>
          return Failed(error);
        case Zeros(run, length) =>
          desti := desti + run;
        case Count(count, length) =>
          if desti >= h.counts.Length {
            return Failed(OutOfRange);
          }
          h.counts[desti] := count;
          h.totalCount := h.totalCount + count;
          desti := desti + 1;
      }
      pos := pos + item.length;
    }
    return Filled(h.counts[..], h.totalCount, desti);
  }

  lemma {:induction false} CountAtMostSum(c: seq<int>, i: nat, n: nat)
    requires NonNegative(c) && i < n <= |c|
    ensures c[i] <= PrefixSum(c, n)
  {
    PrefixSumMonotone(c, 0, n - 1);
    if i < n - 1 { CountAtMostSum(c, i, n - 1); }
  }

  lemma SomePowers()
    ensures Pow2(6) == 64 && Pow2(18) == 0x4_0000 && Pow2(23) == 0x80_0000 && Pow10(5) == 100000
  {
    assert Pow10(3) == 1000;
    assert Pow2(7) == 128 by { assert Pow2(4) == 16; }
    Pow2By16(2);
    Pow2By16(7);
  }

  lemma {:induction false} Pow10Monotone(a: nat, b: nat)
    requires a <= b
    ensures 1 <= Pow10(a) <= Pow10(b)
  {
    Pow10Positive(a);
    if a < b { Pow10Monotone(a, b - 1); }
  }

  /** With at most five significant figures there are fewer than 2^24 slots. */
  lemma LengthBound(cfg: Config, g: Geometry, n: nat)
    requires cfg.lowestDiscernible >= 1 && 0 <= cfg.sigFigs <= 5 && g == GeometryOf(cfg) && g.Fits()
    requires n == BucketsNeeded(g, cfg.highestTrackable)
    ensures CountsLen(g, n) <= MAX_INT32
  {
    hide Pow2, Pow10, BitLen, ShiftLeft, BucketsNeeded;
    BucketsNeededBound(g, cfg.highestTrackable);
    SomePowers();
    var m := g.subHalfCountMag;
    assert m <= 17 by {
      Pow10Monotone(cfg.sigFigs, 5);
      BitLenAtMost(2 * Pow10(cfg.sigFigs) - 1, 18);
    }
    ShiftLeftOrder(n + 1, 64, m);
    ShiftLeftPow2(6, m);
    Pow2Order(6 + m, 23);
  }

  const EXACT_TOTAL := 0x10_0000_0000_0000

  lemma CountsAreCompact(h: Hist)
    requires h.Valid() && h.Consistent() && h.totalCount < EXACT_TOTAL
    ensures Compact(h.counts[..]) && Encodable(h.counts[..])
  {
    var c := h.counts[..];
    forall j | 0 <= j < |c| ensures c[j] < EXACT_TOTAL { CountAtMostSum(c, j, |c|); }
    LengthBound(h.cfg, h.geo, h.bucketCount);
  }

  function DecodedConfig(image: Image): Config {
    Config(image.lowestDiscernible, image.highestTrackable, image.sigFigs, false)
  }

  /** Builds a histogram of the encoded configuration and fills it. There is none where Init
      panics, or when the length field, which says how much of the buffer is payload, says more
      than there is. */
  method Decode(image: Image, payloadLen: int, wordSize: int) returns (h: Hist?, r: Filled)
    ensures h == null <==> !DecodedConfig(image).Accepted() || payloadLen > |image.payload|
    ensures h == null ==> r == Failed(if DecodedConfig(image).Accepted() then TooShort else BadConfig)
    ensures h != null ==> fresh(h) && fresh(h.counts) && h.Valid() && h.cfg == DecodedConfig(image).Normalised()
    ensures h != null ==> r == Fill(image.payload, 0, payloadLen, wordSize, seq(h.counts.Length, _ => 0), 0, 0)
    ensures h != null && r.Filled? ==> h.counts[..] == r.counts && h.totalCount == r.total
  {
    if !DecodedConfig(image).Accepted() {
      return null, Failed(BadConfig);
    }
    var decoded := new Hist(DecodedConfig(image));
    if payloadLen > |image.payload| {
      return null, Failed(TooShort);
    }
    h := decoded;
    r := FillCountsFromBuf(h, image.payload, payloadLen, wordSize);
  }

  /** The payload up to the slot of the maximum restores all counts and their total. */
  lemma PayloadRoundTrip(g: Geometry, c: seq<int>)
    requires Sized(g, |c|) && NonNegative(c) && |c| > 0 && Encodable(c) && Compact(c)
    ensures var n := ImportantLen(g, c); var payload := Payload(c, 0, n);
      Fill(payload, 0, |payload|, ZIGZAG, seq(|c|, _ => 0), 0, 0) == Filled(c, Total(c), n)
  {
    var n := ImportantLen(g, c);
    var payload := Payload(c, 0, n);
    assert payload[0..] == payload;
    FillPayload(payload, 0, c, 0, n, seq(|c|, _ => 0));
    PrefixSumZeros(c, n, |c|);
  }

  /** Encoding a histogram and decoding the result gives back every count, the length of the
      counts and the total, just when the trackable range is one that Init accepts. Totals below
      2^52 are those for which the floating-point rank of the maximum is exact. */
  method EncodeDecode(h: Hist) returns (h2: Hist?, r: Filled)
    requires h.Valid() && h.Consistent() && h.totalCount < EXACT_TOTAL
    ensures h2 != null <==> h.Readable()
    ensures h2 == null ==> r == Failed(BadConfig)
    ensures h2 != null ==> fresh(h2) && r.Filled? && h2.geo == h.geo
    ensures h2 != null ==> h2.counts[..] == h.counts[..] && h2.totalCount == h.totalCount
  {
    hide Fill, Payload, ImportantLen, Compact, Encodable, ItemAt, Pow2, Pow10, ShiftLeft, BitLen;
    CountsAreCompact(h);
    var image := EncodeInto(h);
    h2, r := Decode(image, |image.payload|, ZIGZAG);
    PayloadRoundTrip(h.geo, h.counts[..]);
  }

  /** The code of the least int64 and its byte one place too far. */
  const LEAST: seq<Byte> := [255, 255, 255, 255, 255, 255, 255, 255, 0, 255]

  lemma LeastCode()
    ensures DecodedFrom(LEAST) == Decoded(-INT64_LIMIT, 9)
  {
    UngroupAtIs(LEAST, 0, 1, 0);
    assert LEAST[0..] == LEAST;
  }

  /** It is taken for a count, although counts are not negative. */
  lemma LeastIsTakenForACount(counts: seq<int>)
    requires counts != []
    ensures Fill(LEAST, 0, 9, ZIGZAG, counts, 0, 0) == Filled(counts[0 := -INT64_LIMIT], -INT64_LIMIT, 1)
  {
    hide DecodedFrom;
    LeastCode();
    assert LEAST[0..] == LEAST;
  }
}
