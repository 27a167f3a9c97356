/** Sampling decisions: settings from the collector, merged with the local configuration and the
    mode of the URL, and the token bucket that limits what is sampled. */
module Sampling {
  import opened Common
  import RateCounts
  import TokenBucket
  import opened UrlFilters

  /** The flags of a setting; only these five are ever set. */
  datatype Flags = Flags(override: bool, start: bool, through: bool, throughAlways: bool, triggerTrace: bool)

  const FLAG_OK := Flags(false, false, false, false, false)

  function Bit(b: bool, flag: bv16): bv16 {
    if b then flag else 0
  }

  /** The word they are kept in. */
  function Word(f: Flags): bv16 {
    Bit(f.override, 0x2) | Bit(f.start, 0x4) | Bit(f.through, 0x8) | Bit(f.throughAlways, 0x10)
    | Bit(f.triggerTrace, 0x20)
  }

  function And(a: Flags, b: Flags): Flags {
    Flags(a.override && b.override, a.start && b.start, a.through && b.through, a.throughAlways && b.throughAlways,
          a.triggerTrace && b.triggerTrace)
  }

  /** Combining words bit by bit is combining the flags. */
  lemma WordAnd(a: Flags, b: Flags)
    ensures Word(And(a, b)) == Word(a) & Word(b)
    ensures Word(a.(triggerTrace := false)) == Word(a) & !0x20
    ensures Word(a) == Word(b) ==> a == b
  {
  }

  const MAX_SAMPLING_RATE := 1000000

  function Distance(a: int, b: int): int {
    if a < b then b - a else a - b
  }

  datatype Source = Unset | NoSource | File | Default | Layer

  predicate IsEnabled(flags: Flags) {
    flags.start || flags.throughAlways
  }

  predicate Subset(a: Flags, b: Flags) {
    And(a, b) == a
  }

  function ToFlags(mode: Mode): Flags {
    match mode
    case Enabled => Flags(false, true, false, true, true)
    case Disabled => FLAG_OK
    case Unknown => FLAG_OK
  }

  /** The names of flags that the collector sends; others are ignored. */
  function WithFlagNamed(flags: Flags, name: string): Flags {
    if name == "OVERRIDE" then flags.(override := true)
    else if name == "SAMPLE_START" then flags.(start := true)
    else if name == "SAMPLE_THROUGH" then flags.(through := true)
    else if name == "SAMPLE_THROUGH_ALWAYS" then flags.(throughAlways := true)
    else if name == "TRIGGER_TRACE" then flags.(triggerTrace := true)
    else flags
  }

  method FlagStringToBin(names: seq<string>) returns (flags: Flags)
    ensures flags == Flags("OVERRIDE" in names, "SAMPLE_START" in names, "SAMPLE_THROUGH" in names,
                           "SAMPLE_THROUGH_ALWAYS" in names, "TRIGGER_TRACE" in names)
  {
    flags := FLAG_OK;
    for i := 0 to |names|
      invariant flags == Flags("OVERRIDE" in names[..i], "SAMPLE_START" in names[..i], "SAMPLE_THROUGH" in names[..i],
                               "SAMPLE_THROUGH_ALWAYS" in names[..i], "TRIGGER_TRACE" in names[..i])
    {
      assert names[..i + 1] == names[..i] + [names[i]];
      flags := WithFlagNamed(flags, names[i]);
    }
    assert names[..|names|] == names;
  }

  function AdjustSampleRate(rate: int): (r: int)
    ensures 0 <= r <= MAX_SAMPLING_RATE
    ensures forall x | 0 <= x <= MAX_SAMPLING_RATE :: Distance(r, rate) <= Distance(x, rate)
  {
    if rate < 0 then 0 else if rate > MAX_SAMPLING_RATE then MAX_SAMPLING_RATE else rate
  }

  /** What is configured locally. */
  datatype Config = Config(samplingConfigured: bool, sampleRate: int, mode: Mode, triggerTrace: bool)

  /** Requests that ask to be traced: validly or not, and signed (relaxed) or not (strict). */
  datatype TriggerMode = NotPresent | Invalid | Relaxed | Strict

  datatype Response = TtOk | RateExceeded | TracingDisabled | TriggerTracingDisabled | NotRequested | Ignored
                    | SettingsNotAvailable | Empty

  datatype Decision = Decision(trace: bool, rate: int, source: Source, enabled: bool, rsp: Response,
                               bucketCap: real, bucketRate: real)

  /** The flags a local configuration leaves of the collector's. */
  function Merged(original: Flags, config: Config): Flags {
    var merged :=
      if !config.samplingConfigured then original
      else if original.override then And(original, ToFlags(config.mode))
      else ToFlags(config.mode);
    if config.triggerTrace then merged else merged.(triggerTrace := false)
  }

  function MergedRate(remote: int, override: bool, config: Config): int {
    if config.samplingConfigured && (override ==> config.sampleRate < remote) then config.sampleRate else remote
  }

  class Settings {
    var flags: Flags
    const originalFlags: Flags
    var value: int
    var source: Source
    const bucket: TokenBucket.Bucket
    const relaxedBucket: TokenBucket.Bucket
    const strictBucket: TokenBucket.Bucket

    /** Settings as received, before they are merged. */
    constructor (flags: Flags, value: int, source: Source, bucket: TokenBucket.Bucket, relaxed: TokenBucket.Bucket,
                 strict: TokenBucket.Bucket)
      ensures this.flags == originalFlags == flags && this.value == AdjustSampleRate(value) && this.source == source
      ensures this.bucket == bucket && relaxedBucket == relaxed && strictBucket == strict
    {
      this.flags, originalFlags, this.value, this.source := flags, flags, AdjustSampleRate(value), source;
      this.bucket, relaxedBucket, strictBucket := bucket, relaxed, strict;
    }

    predicate HasOverrideFlag() {
      originalFlags.override
    }

    /** Merges the local configuration: with the override flag, the lower rate and the flags both
        have; without it, the local ones if there are any. */
    method MergeLocalSetting(config: Config)
      requires flags == originalFlags
      modifies this`flags, this`value, this`source
      ensures flags == Merged(originalFlags, config)
      ensures value == MergedRate(old(value), HasOverrideFlag(), config)
      ensures config.samplingConfigured ==>
        var enabled := config.mode == Enabled;
        && !flags.override && !flags.through
        && (flags.start <==> enabled && (HasOverrideFlag() ==> originalFlags.start))
        && (flags.throughAlways <==> enabled && (HasOverrideFlag() ==> originalFlags.throughAlways))
        && (flags.triggerTrace <==>
              enabled && config.triggerTrace && (HasOverrideFlag() ==> originalFlags.triggerTrace))
        && (HasOverrideFlag() ==> value in {old(value), config.sampleRate}
                                  && value <= old(value) && value <= config.sampleRate)
        && (!HasOverrideFlag() ==> value == config.sampleRate)
      ensures !config.samplingConfigured ==>
        && value == old(value)
        && flags == originalFlags.(triggerTrace := originalFlags.triggerTrace && config.triggerTrace)
      ensures source ==
        if config.samplingConfigured && (HasOverrideFlag() ==> value < old(value)) then File else old(source)
    {
      if HasOverrideFlag() && config.samplingConfigured {
        if value > config.sampleRate {
          value := config.sampleRate;
          source := File;
        }
        flags := And(flags, ToFlags(config.mode));
      } else if config.samplingConfigured {
        value := config.sampleRate;
        flags := ToFlags(config.mode);
        source := File;
      }
      if !config.triggerTrace {
        flags := flags.(triggerTrace := false);
      }
    }
  }

  /** The flags for a URL whose filters say so: those of its mode, as far as the collector lets
      them override. */
  function UrlFlags(merged: Flags, original: Flags, mode: Mode): (f: Flags)
    ensures mode == Unknown ==> f == merged
    ensures mode == Disabled ==> !(f.override || f.start || f.through || f.throughAlways || f.triggerTrace)
    ensures mode == Enabled ==>
      && !f.override && !f.through
      && (f.start <==> original.override ==> original.start)
      && (f.throughAlways <==> original.override ==> original.throughAlways)
      && (f.triggerTrace <==> original.override ==> original.triggerTrace)
  {
    if mode == Unknown then merged
    else if original.override then And(ToFlags(mode), original)
    else ToFlags(mode)
  }

  function EffectiveFlags(original: Flags, config: Config, mode: Mode): Flags {
    UrlFlags(Merged(original, config), original, mode)
  }

  /** With the override flag nothing that the collector left out is ever switched on, and the
      rate is never higher than the collector's. */
  lemma OverrideIsObeyed(original: Flags, config: Config, mode: Mode, rate: int)
    requires original.override
    ensures Subset(EffectiveFlags(original, config, mode), original)
    ensures MergedRate(rate, true, config) <= rate
  {
  }

  /** Without it, that holds just when the mode of the URL, or else the local one, where they are
      set, asks for nothing the collector left out; and the local rate holds, whatever it is. */
  lemma SwitchesNothingOnIff(original: Flags, config: Config, mode: Mode, rate: int)
    requires !original.override
    ensures Subset(EffectiveFlags(original, config, mode), original) <==>
      if mode != Unknown then Subset(ToFlags(mode), original)
      else config.samplingConfigured ==>
        var local := ToFlags(config.mode);
        Subset(if config.triggerTrace then local else local.(triggerTrace := false), original)
    ensures config.samplingConfigured ==> MergedRate(rate, false, config) == config.sampleRate
  {
  }

  /** Trigger traces that are switched off locally are open again just for a URL that is enabled,
      unless the collector overrides that and leaves them out. */
  lemma UrlSwitchesTriggerTraceOnIff(original: Flags, config: Config, mode: Mode)
    requires !config.triggerTrace
    ensures EffectiveFlags(original, config, mode).triggerTrace <==>
      mode == Enabled && (original.override ==> original.triggerTrace)
  {
  }

  /** random is drawn from 0 up to the maximum, that excluded. */
  predicate ShouldSample(rate: int, random: nat) {
    rate == MAX_SAMPLING_RATE || random <= rate
  }

  /** Of the possible draws, rate + 1 sample a request, or all of them: a rate of zero does not
      keep requests from being sampled. */
  lemma ShouldSampleCounts(rate: int, random: nat)
    requires 0 <= rate <= MAX_SAMPLING_RATE && random < MAX_SAMPLING_RATE
    ensures ShouldSample(rate, random) <==> random < rate + 1
    ensures ShouldSample(0, 0)
  {
  }

  predicate Requested(tt: TriggerMode) {
    tt != NotPresent
  }

  predicate TriggerEnabled(tt: TriggerMode) {
    tt == Relaxed || tt == Strict
  }

  /** Whether a request is to be sampled, before the bucket is asked. */
  predicate Sampled(flags: Flags, rate: int, traced: bool, tt: TriggerMode, random: nat) {
    if Requested(tt) && !traced then tt != Invalid && flags.triggerTrace
    else if !traced then flags.start && ShouldSample(rate, random)
    else flags.throughAlways || (flags.through && ShouldSample(rate, random))
  }

  predicate IsDraw(random: nat) {
    random < MAX_SAMPLING_RATE
  }

  function Draws(): set<nat> {
    set r: nat | r < MAX_SAMPLING_RATE && IsDraw(r)
  }

  lemma {:induction false} FirstDraws(n: nat)
    requires n <= MAX_SAMPLING_RATE
    ensures |set r | r in Draws() && r < n| == n
  {
    if n == 0 {
      assert (set r | r in Draws() && r < n) == {};
    } else {
      FirstDraws(n - 1);
      assert (set r | r in Draws() && r < n) == (set r | r in Draws() && r < n - 1) + {n - 1};
    }
  }

  /** How many of the draws are to sample a request: for one that is due by its flags, one more
      than the rate, if there are so many; a triggered one and a continued one that is always let
      through do not depend on the draw. */
  function DrawsFor(flags: Flags, rate: nat, traced: bool, tt: TriggerMode): nat {
    var due := if rate < 1000000 then rate + 1 else 1000000;
    if traced then if flags.throughAlways then 1000000 else if flags.through then due else 0
    else match tt
      case NotPresent => if flags.start then due else 0
      case Invalid => 0
      case Relaxed | Strict => if flags.triggerTrace then 1000000 else 0
  }

  lemma DrawsThatSample(flags: Flags, rate: int, traced: bool, tt: TriggerMode)
    requires 0 <= rate <= MAX_SAMPLING_RATE
    ensures |set r | r in Draws() && Sampled(flags, rate, traced, tt, r)| == DrawsFor(flags, rate, traced, tt)
  {
    var k := DrawsFor(flags, rate, traced, tt);
    assert forall r | r in Draws() :: Sampled(flags, rate, traced, tt, r) <==> r < k;
    assert (set r | r in Draws() && Sampled(flags, rate, traced, tt, r)) == (set r | r in Draws() && r < k);
    FirstDraws(k);
  }

  /** Requests that a trace begins with are limited, those that continue one are not. */
  predicate Limited(traced: bool) {
    !traced
  }

  function BucketFor(s: Settings, tt: TriggerMode): TokenBucket.Bucket {
    if tt == Relaxed then s.relaxedBucket else if tt == Strict then s.strictBucket else s.bucket
  }

  /** Whether a limit applies does not show in what is counted, given the result. */
  lemma CountsAlike(sampled: bool, traced: bool, limit: bool)
    ensures forall result :: RateCounts.CountedBy(RateCounts.Request(sampled, traced, limit), result)
                          == RateCounts.CountedBy(RateCounts.Request(sampled, traced, Limited(traced)), result)
  {
  }

  /** Decides a request, for a URL with that mode. The settings are null when there are none. A test
      reporter that does not use them decides itself. For a trigger trace, capacity and rate of the
      bucket are reported in each other's place. */
  method SampleRequest(test: Option<bool>, s: Settings?, traced: bool, mode: Mode, tt: TriggerMode, random: nat,
                       now: real)
    returns (d: Decision)
    modifies if s == null || test.Some? then {} else {BucketFor(s, tt)}
    ensures test.Some? ==> d == Decision(test.value, 0, NoSource, true, Empty, 0.0, 0.0)
    ensures test == None && s == null ==> d == Decision(false, 0, NoSource, false, SettingsNotAvailable, 0.0, 0.0)
    ensures test == None && s != null ==>
      var flags := UrlFlags(s.flags, s.originalFlags, mode);
      var b := match tt
        case Relaxed => s.relaxedBucket
        case Strict => s.strictBucket
        case NotPresent | Invalid => s.bucket;
      var enabled := flags.start || flags.throughAlways;
      var sampled := Sampled(flags, s.value, traced, tt, random);
      && (d.trace <==> sampled && (!traced ==> TokenBucket.Admits(old(b.Abs()), 1.0, now)))
      && d.enabled == enabled
      && b.Abs() == (if sampled && !traced then TokenBucket.Consumed(old(b.Abs()), 1.0, now) else old(b.Abs()))
      && b.counts == RateCounts.Plus(old(b.counts),
           RateCounts.CountedBy(RateCounts.Request(sampled, traced, Limited(traced)), d.trace))
      && (d.rsp == TtOk <==> Requested(tt) && !traced && d.trace)
      && (d.rsp == RateExceeded <==> Requested(tt) && !traced && sampled && !d.trace)
      && (d.rsp == TracingDisabled <==> TriggerEnabled(tt) && !traced && !flags.triggerTrace && !enabled)
      && (d.rsp == TriggerTracingDisabled <==> TriggerEnabled(tt) && !traced && !flags.triggerTrace && enabled)
      && d.rsp != SettingsNotAvailable
      && (d.rsp == NotRequested <==> tt == NotPresent) && (d.rsp == Ignored <==> Requested(tt) && traced)
      && (d.rsp == Empty <==> tt == Invalid && !traced)
      && (Requested(tt) && !traced ==>
            d.rate == -1 && d.source == Unset && d.bucketCap == b.ratePerSec && d.bucketRate == b.capacity)
      && (!Requested(tt) || traced ==>
            && d.rate == s.value && d.source == (if mode == Unknown then s.source else File)
            && d.bucketCap == s.bucket.capacity && d.bucketRate == s.bucket.ratePerSec)
  {
    hide TokenBucket.Admits, TokenBucket.Consumed, RateCounts.CountedBy, RateCounts.Plus;
    if test.Some? {
      return Decision(test.value, 0, NoSource, true, Empty, 0.0, 0.0);
    }
    if s == null {
      return Decision(false, 0, NoSource, false, SettingsNotAvailable, 0.0, 0.0);
    }
    var flags := s.flags;
    var source := s.source;
    if mode != Unknown {
      flags := ToFlags(mode);
      source := File;
      if s.HasOverrideFlag() {
        flags := And(flags, s.originalFlags);
      }
    }
    var bucket := s.bucket;
    if tt == Relaxed {
      bucket := s.relaxedBucket;
    } else if tt == Strict {
      bucket := s.strictBucket;
    }
    if Requested(tt) && !traced {
      var sampled := tt != Invalid && flags.triggerTrace;
      var rsp := TtOk;
      var ret := bucket.Count(sampled, false, true, now);
      if flags.triggerTrace && TriggerEnabled(tt) {
        if !ret {
          rsp := RateExceeded;
        }
      } else if tt == Invalid {
        rsp := Empty;
      } else if !IsEnabled(flags) {
        rsp := TracingDisabled;
      } else {
        rsp := TriggerTracingDisabled;
      }
      var b := BucketFor(s, tt);
      return Decision(ret, -1, Unset, IsEnabled(flags), rsp, b.ratePerSec, b.capacity);
    }
    var retval, doRateLimiting := false, false;
    if !traced {
      if flags.start {
        retval := ShouldSample(s.value, random);
        if retval {
          doRateLimiting := true;
        }
      }
    } else if flags.throughAlways {
      retval := true;
    } else if flags.through {
      retval := ShouldSample(s.value, random);
    }
    CountsAlike(retval, traced, doRateLimiting);
    retval := bucket.Count(retval, traced, doRateLimiting, now);
    var rsp := NotRequested;
    if Requested(tt) {
      rsp := Ignored;
    }
    return Decision(retval, s.value, source, IsEnabled(flags), rsp, s.bucket.capacity, s.bucket.ratePerSec);
  }

  /** What the collector has disabled by leaving out a flag is not traced, however requests come:
      new ones without SAMPLE_START, trigger traces without TRIGGER_TRACE, and continued ones
      without either SAMPLE_THROUGH flag; given the override flag, for every local configuration
      and every URL. */
  lemma DisabledIsNotSampled(original: Flags, config: Config, mode: Mode, rate: int, traced: bool, tt: TriggerMode,
                             random: nat)
    requires original.override
    requires Sampled(EffectiveFlags(original, config, mode), rate, traced, tt, random)
    ensures traced ==> original.throughAlways || original.through
    ensures !traced && !Requested(tt) ==> original.start
    ensures !traced && Requested(tt) ==> tt != Invalid && original.triggerTrace
  {
    OverrideIsObeyed(original, config, mode, rate);
  }

  /** A request from end to end: the collector's settings are merged with the local configuration,
      the filters say what they say of the URL, and the buckets decide. With the override flag
      nothing the collector has disabled is traced. */
  method DecideRequest(flags: Flags, rate: int, source: Source, buckets: seq<TokenBucket.Bucket>, config: Config,
                       filters: Filters, url: string, room: bool, evicted: set<string>,
                       traced: bool, tt: TriggerMode, random: nat, now: real)
    returns (d: Decision)
    requires |buckets| == 3
    modifies filters, buckets
    ensures d.trace ==> Sampled(EffectiveFlags(flags, config, Answer(old(filters.Abs()), url)),
                                MergedRate(AdjustSampleRate(rate), flags.override, config), traced, tt, random)
    ensures flags.override && d.trace ==> if traced then flags.throughAlways || flags.through
      else if Requested(tt) then flags.triggerTrace else flags.start
  {
    var settings := new Settings(flags, rate, source, buckets[0], buckets[1], buckets[2]);
    settings.MergeLocalSetting(config);
    var mode := filters.GetTracingMode(url, room, evicted);
    d := SampleRequest(None, settings, traced, mode, tt, random, now);
    if flags.override && d.trace {
      DisabledIsNotSampled(flags, config, mode, settings.value, traced, tt, random);
    }
  }
}
