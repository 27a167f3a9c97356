# AppOptics Go agent: a verified model

A Dafny 4.11 model of the algorithms of the AppOptics APM agent for Go, with the properties that
each of them is for. `dafny verify dfyconfig.toml` checks all of it.

| files | what they model |
|---|---|
| `Bits`, `HistGeometry`, `HistCounts`, `HistGrowth`, `HistMerge`, `Hist` | the HDR histogram: bucket geometry, recording, resizing, merging, subtracting, quantiles |
| `ZigZag`, `HistCodec` | the payload of an encoded histogram |
| `SqlSanitizer`, `SqlPieces` | the state machine that takes literals out of SQL statements, and what that makes of them |
| `Bson` | the buffer that nested documents are written to, and a parser of the format (BSON Specification Version 1.1) |
| `EventArgs`, `TraceGraph`, `Spans`, `EndRace` | the events that a trace and its spans report, their arguments, and the edges between them |
| `BytesBucket`, `EventSender`, `InvokeRpc`, `SharedConnection` | batching, what a shutdown loses, sending with retries and redirects, and the connection that goroutines share |
| `TokenBucket`, `RateCounts`, `Sampling`, `UrlFilters` | sampling decisions, their rate limit and counters |
| `XTrace` | X-Trace metadata as bytes and strings |
| `MetricIds`, `Measurements` | the capped store of measurements |

An object that the program updates is a class here, and each of its methods is proved against a
function of the old state; what holds over whole runs is then proved of those functions. Code that
runs concurrently is a state machine whose steps are those that its locks and atomic operations
order, and its properties hold for every schedule. Time, random numbers, the answers of the
collector, and what a `select` receives are parameters, and every result is for all of them.

A run-time panic of the program appears as a `false` result or an error value.

Where the program does not do what one would expect, the model does what the program does:

- `numBucketsToCoverVal` and `RecordN` compare with `<` and `>`, so the values of the first slot
  past the end are refused, also by a histogram that resizes itself
  (`HistGrowth.FirstSlotPastEndRefused`), and so are powers of two beyond it (`HistGrowth.RecordableIff`).
- Growing a histogram without significant figures can store a trackable range that a decoder does
  not accept (`HistGrowth.GrownReadableIff` says exactly when).
- Adding a histogram whose maximum is a power of two, and alone in its slot, can panic although the
  receiver resizes itself (`HistMerge.AloneIsNotMergeable`, `HistMerge.FourIsAlone`).
- Init never returns when the derived magnitudes reach the sign bit (`HistGrowth.InitNeverReturns`).
- The code of the least int64 is decoded as a count (`HistCodec.LeastIsTakenForACount`).
- The ZigZag decoder reads the ninth byte one place too far (`ZigZag.ZigZagRoundTrip` says exactly
  when that does no harm).
- In PostgreSQL the end of a dollar quote is compared only if the tag still fits into the
  statement, so what follows can depend on a later literal (`SqlSanitizer.LiteralsDoNotLeak` says
  exactly when it does not).
- The rune after a literal or a number is copied whatever it is, so a quote right after a number
  opens no literal (`SqlPieces.QuoteAfterNumber`), and a word loses what looks like the prefix of
  a literal right after it, also when it is part of a name (`SqlPieces.WithoutPrefix`).
- `span.End` reads its arguments and the edges for its children as one list of pairs, so an odd
  argument loses all of these edges, or the whole event (`TraceGraph.ExitJoinsIff` says exactly
  when, `TraceGraph.OddArgumentLosesChildren` shows it).
- `span.End` does not look again whether the span has ended once it has the lock
  (`EndRace.SpanExitsOnceIff` says exactly when it exits once).
- The sender reads the graceful flag when it starts, before any shutdown can set it. So the sender
  of a running reporter drains nothing on closing and loses what its bucket and the queue hold
  (`EventSender.StartedBeforeShutdown`, `EventSender.LastTurnLosesNothingIff`).
- A method without a service key counts as sent (`InvokeRpc.SkippedCountsAsSent`).
- A full token bucket keeps its old time, which is worth one more token
  (`TokenBucket.FullBucketExceedsIff`).
- A sample rate of zero can sample (`Sampling.ShouldSampleCounts`), a URL filter can undo a local
  setting (`Sampling.UrlSwitchesTriggerTraceOnIff`), and the decision for a trigger trace has the
  capacity and the rate of its bucket in each other's place (`Sampling.SampleRequest`).
- Tags that hold separators can share one metric ID (`MetricIds.IdsCanCollide`,
  `MetricIds.IdsAreDistinct`).

## Model

| member | source | states |
|---|---|---|
| HistGeometry.BucketIndexByLeadingZeros | v1/ao/internal/hdrhist/hist.go:173-175 | counting leading zeros of the value or-ed with the mask gives the number of bits beyond those of bucket 0 |
| HistGeometry.LeadingZeros | v1/ao/internal/hdrhist/hist.go:220-247 | the halving search returns 64 minus the bit length, for every 64-bit word |
| HistGeometry.IndexOfValueFor | v1/ao/internal/hdrhist/hist.go:165-189 | countsIndex undoes valueFor on every slot whose value fits an int64 |
| HistGeometry.ValueForIndexOf | v1/ao/internal/hdrhist/hist.go:181-214 | valueFor(countsIndex(v)) = lowestEquiv(v) <= v <= highestEquiv(v) |
| HistGeometry.SlotsTile | v1/ao/internal/hdrhist/hist.go:181-200 | slot 0 begins at 0, and each slot begins where the one before it ends |
| HistGeometry.IndexIff | v1/ao/internal/hdrhist/hist.go:165-171 | a value falls in slot i exactly when it lies in the range of slot i |
| HistGeometry.IndexMonotone | v1/ao/internal/hdrhist/hist.go:165-171 | countsIndex is monotone |
| HistGeometry.EquivalentIff | v1/ao/internal/hdrhist/hist.go:202-218 | two values share a slot exactly when they share its low end, and exactly when one lies in the range reported for the other |
| HistGeometry.HighestEquivFits | v1/ao/internal/hdrhist/hist.go:212-214 | the top of the slot of a value never overflows, and lies in that slot |
| HistGeometry.SlotWidthBound | v1/ao/internal/hdrhist/hist.go:191-200 | a slot is as wide as the unit, or no wider than the fraction of its values that the significant figures promise |
| HistGrowth.ResolutionSuffices | v1/ao/internal/hdrhist/hist.go:117-124 | the derived sub-bucket count is enough for the configured significant figures |
| HistGrowth.NumBucketsToCoverVal | v1/ao/internal/hdrhist/hist.go:151-163 | the doubling loop, with its overflow exit, returns the least number of buckets whose ranges reach up to v |
| HistGrowth.BucketsNeededIff | v1/ao/internal/hdrhist/hist.go:151-163 | n buckets reach up to v exactly when v <= 2^(unitMag + subHalfCountMag + n): the first value past the end counts as covered |
| HistGrowth.CoveredIff | v1/ao/internal/hdrhist/hist.go:126-130 | a value has a slot among those of n buckets exactly when it is below that power of two |
| HdrHist.Hist.constructor | v1/ao/internal/hdrhist/hist.go:101-138 | Init: widened range, derived geometry, zero counts of the right length |
| HistGrowth.GeometryIs | v1/ao/internal/hdrhist/hist.go:101-124 | the unit is the greatest power of two up to the least discernible value, and half the sub-buckets the least power of two that makes twice as many reach the resolution |
| HdrHist.WithConfig | v1/ao/internal/hdrhist/hist.go:101-138 | which configurations Init panics on, and the histogram it makes of the others |
| HistGrowth.InitNeverReturns | v1/ao/internal/hdrhist/hist.go:151-163 | when the derived magnitudes reach the sign bit the doubling loop, with wrap-around, never ends for a positive range |
| HdrHist.Hist.Resize | v1/ao/internal/hdrhist/hist.go:140-149 | the new counts are the old ones cut or padded to the buckets the value needs; the trackable range stored then is one less than the power of two these buckets end at; geometry and total stay |
| HdrHist.Hist.RecordN | v1/ao/internal/hdrhist/hist.go:449-459 | which values are accepted, exactly; the slot that changes, every other count kept through a resize, the total, and the trackable range; and the state after a panic |
| HistGrowth.RecordableIff | v1/ao/internal/hdrhist/hist.go:449-459 | a value is accepted exactly when its slot is within the counts after growing; for a histogram that resizes itself these are all values that are not negative, but those of the first slot past the end and, beyond it, powers of two |
| HistGrowth.FirstUntrackableRefused | v1/ao/internal/hdrhist/hist.go:449-459 | the power of two at which the slots end has the first slot past the end, and is refused in every histogram, also one that resizes itself |
| HistGrowth.FirstSlotPastEndRefused | v1/ao/internal/hdrhist/hist.go:449-459 | which values fall in that slot, exactly; all of them are refused |
| HistGrowth.RefusesTwoHundredFiftySix | v1/ao/internal/hdrhist/hist.go:83-90 | so a new self-resizing histogram with two significant figures refuses 256 |
| HistGrowth.NegativeIndex | v1/ao/internal/hdrhist/hist.go:165-179 | a negative value always falls past the end of the counts |
| HdrHist.Hist.Val | v1/ao/internal/hdrhist/hist.go:330-357 | value, count of its slot, running sum and percentile, for values within, past the end and negative |
| HdrHist.Hist.PercentileVal | v1/ao/internal/hdrhist/hist.go:392-426 | the loop finds the first slot whose running sum reaches the rank; PercentileOfRecorded says what that means without it |
| HistCounts.PercentileIsRanked | v1/ao/internal/hdrhist/hist.go:392-426 | that slot is the one of the recorded value of that rank, so the report is the top of its range |
| HistCounts.RankIsNearest | v1/ao/internal/hdrhist/hist.go:392-395 | the rank is the integer k with k - 1/2 <= p * n / 100 < k + 1/2, or 1 where that is below 1 |
| HistCounts.PercentileReports | v1/ao/internal/hdrhist/hist.go:392-426 | what else is reported: how many of the values lie in the range of that value, how many do not exceed it, and their share of all |
| HistCounts.KthOfSorted | v1/ao/internal/hdrhist/hist.go:392-426 | the value of a rank is the one at that place in any sorted rearrangement of the recorded values |
| HistCounts.RecordingAdds | v1/ao/internal/hdrhist/hist.go:449-459 | counting a value in its slot, after growing or not, adds exactly that value to those the counts stand for |
| HistCounts.MaxIsLastSlot | v1/ao/internal/hdrhist/hist.go:367-367 | Max is the top of the last slot with a count, or 0 in slot 0 when nothing is counted |
| HdrHist.RecordEach | v1/ao/internal/hdrhist/hist.go:447-459 | recording any sequence leaves counts that stand for exactly it; values in range are never refused |
| HdrHist.PercentileOfRecorded | v1/ao/internal/hdrhist/hist.go:392-426 | a percentile p after recording n values: there is a place k with k - 1/2 <= p * n / 100 < k + 1/2, or 1 where that is below 1, and the report is of the value at place k of the sorted values: the top of its range, which exceeds it by less than a unit or the promised fraction, how many values lie in that range and up to it, and their share |
| HdrHist.ValOfRecorded | v1/ao/internal/hdrhist/hist.go:330-357 | of a value, in terms of the values recorded: how many lie in its range, how many do not exceed it, and their share of all |
| HdrHist.Hist.Reach | v1/ao/internal/hdrhist/hist.go:249-256 | the common start of Add and Sub, for any two geometries: it refuses exactly when the maximum of the other is past the range and growing is not allowed; no count changes, what trackable range is stored, and when every count of the other lands inside then |
| HistGrowth.GrownReadableIff | v1/ao/internal/hdrhist/hist.go:140-149 | the trackable range that growing stores is one that Init accepts without resizing just when there are significant figures or two buckets |
| HistGrowth.GrowingCanBeUnreadable | v1/ao/internal/hdrhist/hist.go:249-256 | with no significant figures it can be one that is not accepted |
| HdrHist.Hist.Add | v1/ao/internal/hdrhist/hist.go:249-275 | for any two geometries: whether it panics, exactly; otherwise every count is added where its value lands, and the totals are added; for equal geometry either path gives the pointwise sum |
| HistMerge.GrownLandsUpTo | v1/ao/internal/hdrhist/hist.go:249-275 | growing for a maximum covers it, and all that is to be added, unless the maximum is a power of two and the only value of its slot |
| HistMerge.AloneIsNotMergeable | v1/ao/internal/hdrhist/hist.go:249-275 | so a histogram whose last value is such a power of two, past the range, is never added |
| HistMerge.FourIsAlone | v1/ao/internal/hdrhist/hist.go:83-90 | as the value 4 of a two-figure histogram is for a new one without figures |
| HistGrowth.GrowthCovers | v1/ao/internal/hdrhist/hist.go:249-256 | the growth for a maximum is never defeated by the first value past the end, because a maximum there is odd |
| HdrHist.Hist.Sub | v1/ao/internal/hdrhist/hist.go:289-306 | likewise every count is taken where its value lands, with a panic exactly when that is not reached or some slot would be left with fewer than are to be taken; for equal geometry a pointwise difference |
| HistMerge.LandingAdds | v1/ao/internal/hdrhist/hist.go:249-275 | adding counts where they land makes a histogram stand for its values and those of the other, each rounded down by the geometry of the other |
| HistMerge.LandingTakes | v1/ao/internal/hdrhist/hist.go:289-306 | and taking them leaves it standing for the rest |
| HdrHist.AddRecorded | v1/ao/internal/hdrhist/hist.go:249-275 | so Add, when it does not panic, leaves the values recorded in either |
| HdrHist.SubRecorded | v1/ao/internal/hdrhist/hist.go:289-306 | and Sub those that were not recorded in the other |
| HistMerge.LandedSame | v1/ao/internal/hdrhist/hist.go:249-306 | in a histogram of the same geometry every count lands in its own slot |
| HdrHist.SubAfterAdd | v1/ao/internal/hdrhist/hist.go:249-306 | subtracting what was just added never fails and restores every count and the total |
| ZigZag.EncodeZigZag | v1/ao/internal/hdrhist/zigzag.go:26-71 | the nested branches write seven bits a byte, and eight in the ninth |
| ZigZag.DecodeZigZag | v1/ao/internal/hdrhist/zigzag.go:73-131 | the nested branches read them, the ninth byte from one place too far; missing data is an error |
| ZigZag.FoldBits | v1/ao/internal/hdrhist/zigzag.go:28-28 | the word (i << 1) ^ (i >> 63) is Fold, for every int64 |
| ZigZag.UnfoldBits | v1/ao/internal/hdrhist/zigzag.go:117-117 | the word (z >> 1) ^ -(z & 1), read as signed, is Unfold, for every 64-bit word |
| ZigZag.ContinuedBits | v1/ao/internal/hdrhist/zigzag.go:32-64 | a byte with the continuation bit set is the lowest seven bits and 128 |
| ZigZag.JoinBits | v1/ao/internal/hdrhist/zigzag.go:73-117 | or-ing the next group in is adding it times a power of 128, and leaves room for the one after |
| ZigZag.ZigZagRoundTrip | v1/ao/internal/hdrhist/zigzag.go:26-131 | a code followed by anything decodes to its value and length exactly when it needs at most eight bytes or the next byte happens to repeat the ninth |
| ZigZag.CodeByte | v1/ao/internal/hdrhist/zigzag.go:26-71 | every byte of a code, and its length: seven bits each from the lowest on, with a bit on top for more to come, and eight in the ninth |
| ZigZag.LargeCountFails | v1/ao/internal/hdrhist/zigzag.go:105-108 | 2^55 alone cannot be read back |
| HistCodec.FillBuffer | v1/ao/internal/hdrhist/encode.go:63-96 | the loop writes the payload: one code a count, and one for each run of two or more zeros |
| HistCodec.CountIsWritten | v1/ao/internal/hdrhist/encode.go:77-93 | a slot that counts something is written as its count |
| HistCodec.LoneZeroIsWritten | v1/ao/internal/hdrhist/encode.go:79-93 | a zero between slots that count something is written as the one byte 0 |
| HistCodec.RunIsWritten | v1/ao/internal/hdrhist/encode.go:79-93 | a longer run of zeros, the whole of it, is written as its negated length |
| HistCodec.EncodeInto | v1/ao/internal/hdrhist/encode.go:41-61 | what is encoded are the slots up to the one of the maximum, and the configuration |
| HistCodec.FillCountsFromBuf | v1/ao/internal/hdrhist/decode.go:137-179 | the loop reads codes, or words of any size, into counts, with the errors and the index panic it can meet |
| HistCodec.ItemOfCode | v1/ao/internal/hdrhist/decode.go:141-177 | a code is taken for a count, for a run of zeros, or for too many zeros, exactly by its value |
| HistCodec.TooFewSlots | v1/ao/internal/hdrhist/decode.go:170-177 | a payload with more counts than there are slots ends in the index panic |
| HistCodec.DecodeIntSize | v1/ao/internal/hdrhist/decode.go:190-217 | a word of up to eight bytes, most significant first, read as signed |
| HistCodec.BigEndianFirst | v1/ao/internal/hdrhist/decode.go:190-217 | the first byte of a word counts most |
| HistCodec.LeastIsTakenForACount | v1/ao/internal/hdrhist/decode.go:154-173 | the code of the least int64 is written into the counts, as it stays negative when negated |
| HistCodec.Decode | v1/ao/internal/hdrhist/decode.go:78-134 | a histogram of the encoded configuration, filled from the payload; none if Init does not accept the configuration or the payload is too short |
| HistCodec.FillStep | v1/ao/internal/hdrhist/decode.go:141-177 | reading one code of a payload restores one count or skips one run of zeros, whatever follows it |
| HistCodec.PayloadRoundTrip | v1/ao/internal/hdrhist/encode.go:63-96 | reading the payload up to the slot of the maximum into zero counts restores every count and their sum |
| HistCodec.EncodeDecode | v1/ao/internal/hdrhist/decode.go:78-135 | encoding and decoding restores counts, their number and the total, for totals below 2^52; the decoder accepts the configuration just when its range is at least twice its least value, which is so after Init and, but for GrownReadableIff, after growing |
| HistCodec.LengthBound | v1/ao/internal/hdrhist/hist.go:117-130 | no configuration has more slots than the 32-bit run length can count |
| SqlSanitizer.NewSanitizer | v1/ao/internal/reporter/sql_sanitizer.go:119-152 | which runes quote literals and which quote identifiers, and what closes them, for every database and mode |
| SqlSanitizer.Turn | v1/ao/internal/reporter/sql_sanitizer.go:213-350 | the switch on the stack object is the step of the specification, for each of the eleven states; what the steps amount to is in SqlPieces |
| SqlSanitizer.Sanitize | v1/ao/internal/reporter/sql_sanitizer.go:156-354 | the loop yields the specified output, within its bounds; SqlPieces.EveryStatement says what that is on the text |
| SqlPieces.EveryStatement | v1/ao/internal/reporter/sql_sanitizer.go:156-354 | what comes out of any statement of any length without a dollar sign, or for a database without dollar quotes, told by its text alone: it is made of words, quoted names, numbers, literals and other runes, and comes out as these pieces, each as it is, but with one question mark for a number or a literal and without the prefix in front of a literal; it is cut off at the first place where 2047 runes are down |
| SqlPieces.WholeStatement | v1/ao/internal/reporter/sql_sanitizer.go:156-354 | so does every statement of up to 2047 single-byte runes that is made of such pieces and, for PostgreSQL, dollar-quoted literals |
| SqlPieces.PiecesOf | v1/ao/internal/reporter/sql_sanitizer.go:203-353 | every statement of that kind is made of such pieces, unfinished ones at its end included |
| SqlPieces.LiteralPasses | v1/ao/internal/reporter/sql_sanitizer.go:213-312 | a literal, with a word in front of it or without, from its opening quote to the rune after its closing one: plain and escaped runes and doubled quotes inside; X, B, U, N or U& at the end of the word is dropped |
| SqlPieces.DollarQuotePasses | v1/ao/internal/reporter/sql_sanitizer.go:213-275 | a dollar-quoted literal goes on to the first place where its whole tag comes again |
| SqlPieces.NumberAfterWord | v1/ao/internal/reporter/sql_sanitizer.go:313-315 | a number after a word and a space or an operator is replaced, whatever comes before it is unchanged and what follows is read as if it stood alone |
| SqlPieces.QuoteAfterNumber | v1/ao/internal/reporter/sql_sanitizer.go:280-291 | a quote right after a number is copied and opens no literal, so the word after it is copied too |
| SqlSanitizer.OutputBounds | v1/ao/internal/reporter/sql_sanitizer.go:165-205 | at most min(2048, statement) runes; but for a final ellipsis, found in the statement in order, with some runes replaced |
| SqlSanitizer.RuneStack.Push | v1/ao/internal/reporter/sql_sanitizer.go:169-174 | a push on a full buffer is lost (Sanitize shows that none ever is) |
| SqlSanitizer.LiteralsDoNotLeak | v1/ao/internal/reporter/sql_sanitizer.go:203-353 | statements that differ in the body of one literal, single-quoted or double-quoted, have the same output, truncated or not, whatever the bodies and what follows, exactly when each dollar sign before it that a tag is compared at leaves room for the whole tag in the prefix |
| SqlSanitizer.UnsettledLeaks | v1/ao/internal/reporter/sql_sanitizer.go:240-251 | after any prefix that is not settled there are two literals with different outputs |
| SqlSanitizer.LengthLeaks | v1/ao/internal/reporter/sql_sanitizer.go:240-251 | for example, one rune more in a literal changes the output |
| SqlSanitizer.NumbersDoNotLeak | v1/ao/internal/reporter/sql_sanitizer.go:203-353 | nor does the output depend on which number follows such a prefix |
| SqlSanitizer.SettledElsewhere | v1/ao/internal/reporter/sql_sanitizer.go:240-243 | the condition always holds outside PostgreSQL |
| SqlSanitizer.SettledWithoutDollar | v1/ao/internal/reporter/sql_sanitizer.go:240-243 | and for every prefix without a dollar sign |
| Bson.Buffer.Finish | v1/ao/internal/bson/bson.go:33-36 | closes the document and patches its length in front |
| Bson.Buffer.AppendString | v1/ao/internal/bson/bson.go:38-41 | appends one string element, its length counting the terminator |
| Bson.Buffer.AppendInt | v1/ao/internal/bson/bson.go:48-54 | appends a 32-bit or a 64-bit number, by its range |
| Bson.Buffer.AppendStartObject | v1/ao/internal/bson/bson.go:80-84 | appends the head of a nested document and says where its length goes |
| Bson.Buffer.AppendFinishObject | v1/ao/internal/bson/bson.go:92-95 | closes the document opened there: the length counts from there, everything else stays |
| Bson.Buffer.SetInt32 | v1/ao/internal/bson/bson.go:132-137 | overwrites four bytes, least significant first, and nothing else |
| Bson.Buffer.AddInt64 | v1/ao/internal/bson/bson.go:144-148 | appends the eight bytes of the two's complement |
| Bson.WriteElement | v1/ao/internal/bson/bson.go:80-95 | bracketed calls for one element append exactly its bytes, at any depth, behind anything |
| Bson.DocumentRoundTrip | v1/ao/internal/bson/bson.go:28-156 | a parser of the BSON 1.1 grammar gives back exactly the tree written, just when no key contains a zero byte |
| Bson.WriteDocument | v1/ao/internal/bson/bson.go:28-95 | so does any bracketed sequence of calls on a new buffer |
| EventArgs.EdgesOfBoth | v1/ao/layer.go:267-271 | the edges read in pairs from a caller's arguments and those that a span adds for its children: the latter are read exactly when the former come in pairs; if not, there are none, or the event is refused |
| EventArgs.EdgesOfAre | v1/ao/internal/reporter/event.go:280-327 | arguments stand for exactly the edges that one of their pairs asks for |
| EventArgs.KeyedIff | v1/ao/internal/reporter/event.go:278-283 | arguments are refused exactly when some key among them is not a string |
| TraceGraph.StepKeeps | v1/ao/layer.go:229-319 | every begin, info, error, end, adding of end arguments and reservation of the exit keeps the graph linked, its op IDs distinct, spans paired, and paired exits joined to those of children |
| TraceGraph.StepKeepsOwn | v1/ao/layer.go:229-319 | and contexts at events of their own span, what is remembered at events of children, and unpaired exits with one edge to an event of their own span |
| TraceGraph.EveryRunIsJoined | v1/ao/layer.go:211-319 | in every run, whatever arguments are given: every event but the root entry has edges of its own, all to earlier events with the same task ID; edges lead from each to the root; one entry and at most one exit a span; an exit has an edge to every earlier exit of a child exactly when the arguments in front of these edges are even in number, or there is none, and the exit of the trace always has |
| TraceGraph.EveryEventContinues | v1/ao/internal/reporter/reporter.go:186-201 | in every run, told by the events alone: the last own edge of an info, an error or an exit is to the latest event of its span before it, and that of an entry to the latest event of the parent |
| TraceGraph.NothingAfterExit | v1/ao/layer.go:260-344 | in every run a span reports nothing after its exit, and no span begins under it then |
| TraceGraph.ReservedIsUsed | v1/ao/trace.go:318-326 | an op ID that is reserved while the trace goes on is the one its exit has |
| TraceGraph.ExitJoinsIff | v1/ao/layer.go:260-281 | the exit that a call of End prepares has edges to all that its span remembers of children exactly when the call's arguments are even in number, or the span is the trace, or it remembers nothing |
| TraceGraph.EveryExitJoins | v1/ao/layer.go:260-281 | so in a run whose spans are ended with arguments in pairs, every exit has an edge to every earlier exit of a child |
| TraceGraph.OddArgumentLosesChildren | v1/ao/layer.go:267-271 | one string as argument of End loses the edge to a child, and one argument that is not a string loses the exit |
| TraceGraph.ExitEdgesAsRead | v1/ao/internal/reporter/context.go:800-814 | the edges of an exit as read from all its arguments are those asked for and those added for children |
| TraceGraph.EdgesGoBack | v1/ao/internal/reporter/event.go:232-276 | an edge leads to an earlier event, so the graph has no cycle |
| TraceGraph.ReachesRoot | v1/ao/internal/reporter/event.go:232-234 | from every event a chain of edges leads down to the root entry |
| TraceGraph.EveryEndedSpanIsPaired | v1/ao/layer.go:260-281 | every ended span has exactly one entry, and all have an exit exactly when every call of End prepared one |
| TraceGraph.WellCalledRunsAreComplete | v1/ao/layer.go:260-319 | which they do when spans are ended with arguments in pairs whose keys are strings; then all exits are joined, too |
| TraceGraph.NothingMissing | v1/ao/internal/reporter/reporter_grpc.go:643-660 | every event that edges lead to was sent, if the queue is never full |
| TraceGraph.JoinedAtEnd | v1/ao/layer.go:267-279 | a paired exit of a span joins the exits of its children, and any exit is remembered by a parent that has not ended |
| EventArgs.EdgesOfChildren | v1/ao/internal/reporter/event.go:268-276 | edges given as strings are kept just when they belong to the trace |
| Spans.Context.Copy | v1/ao/internal/reporter/context.go:697-704 | a copy is another object with the same identifiers |
| Spans.Tracing.ReadArgs | v1/ao/internal/reporter/context.go:800-806 | the loop reads arguments in pairs, up to a key that is not a string |
| Spans.LayerSpan.WithChildEdges | v1/ao/layer.go:268-270 | the loop adds two arguments for each child that is remembered |
| Spans.Tracing.ReportEvent | v1/ao/internal/reporter/context.go:800-814 | adds the edges that are asked for, checks the op ID against the context and moves the context on, also when the event is then dropped; or refuses the arguments |
| Spans.Tracing.NewSpan | v1/ao/layer.go:511-527 | reports the entry on the context given, and returns a span with a copy of it just when the entry was queued |
| Spans.Tracing.BeginSpan | v1/ao/layer.go:229-235 | begins a child on a copy of the parent's context: the step of the graph, the parent's own context unmoved |
| Spans.Tracing.Report | v1/ao/layer.go:336-344 | reports on the span's own context, which is at the new event then, unless the span has ended or the event is refused; the event and its edges are given |
| Spans.Tracing.AddEndArgs | v1/ao/layer.go:310-320 | keeps arguments for the end, an odd one cut off |
| Spans.Tracing.End | v1/ao/layer.go:260-281 | the step that ends a span, on objects: its arguments, those kept, and those for children, in this order; the exit, its edges, and what the parent remembers are given |
| Spans.Tracing.EndTrace | v1/ao/trace.go:209-215 | the step that ends the trace, on objects, its arguments cut to an even number; its exit and edges are given |
| Spans.Tracing.ReportExit | v1/ao/trace.go:270-311 | the same step with the arguments kept so far, and with the exit event reserved for it if there is one |
| Spans.Tracing.ExitMetadata | v1/ao/trace.go:318-326 | reserves the exit event once, and reports its identifiers |
| EndRace.TraceExitsOnce | v1/ao/trace.go:270-280 | a trace that any number of goroutines end at once reports one exit |
| EndRace.TraceEnds | v1/ao/trace.go:270-311 | and once a goroutine has looked and nobody waits any more, it has ended |
| EndRace.EveryLookExits | v1/ao/layer.go:260-264 | in every state and schedule, exits and goroutines still waiting to exit add up to those that looked before the span had ended |
| EndRace.SpanExitsOnceIff | v1/ao/layer.go:260-281 | so, when nobody waits any more, a span has exited once just when one goroutine looked before it had ended |
| EndRace.SpanCanExitTwice | v1/ao/layer.go:260-264 | two goroutines can make a span exit twice |
| BytesBucket.Bucket.PourIn | v1/ao/internal/reporter/bytesbucket.go:106-171 | the two loops are the specified pouring, for every sequence of arrivals, timeouts and closings; and how many bytes were poured; PourInIs says when it ends |
| BytesBucket.PourInIs | v1/ao/internal/reporter/bytesbucket.go:106-171 | told by the signals alone: pouring ends with the first message that does not fit, timeout with bytes in the bucket, message that fits after a timeout without bytes or in a bucket never drained, or closing, and receives nothing after it; what the bucket then holds, what waits, whether it is full and how many messages were dropped |
| BytesBucket.Bucket.Drain | v1/ao/internal/reporter/bytesbucket.go:174-185 | hands over the water and empties the bucket |
| BytesBucket.StepKeeps | v1/ao/internal/reporter/bytesbucket.go:106-185 | pouring and draining lose and reorder nothing and keep the bounds |
| BytesBucket.EveryRunIsFaithful | v1/ao/internal/reporter/bytesbucket.go:106-185 | in every run: batches, water and waiting list are the received messages of at most the high watermark, in order; the watermark is the size of the water and within bounds; at most one message waits; no batch is too big to send |
| EventSender.PourEnds | v1/ao/internal/reporter/bytesbucket.go:127-168 | pouring ends with a full bucket that has something to drain, or on closing; which bucket is full then, and what it means that a message waits |
| EventSender.NothingWaitsIff | v1/ao/internal/reporter/bytesbucket.go:113-151 | after pouring nothing waits just when all the bucket holds is within the high watermark |
| EventSender.TurnLeaves | v1/ao/internal/reporter/reporter_grpc.go:692-725 | what one turn of the sender leaves undelivered, exactly: on closing everything, unless the bucket is graceful and has bytes; otherwise the last message if it was one too many |
| EventSender.StartedBeforeShutdown | v1/ao/internal/reporter/reporter_grpc.go:683-690 | the graceful flag is read when the sender starts, so a sender that started before the shutdown never runs a graceful bucket, however the reporter is shut down |
| EventSender.GracefulIff | v1/ao/internal/reporter/reporter_grpc.go:683-690 | the sender runs a graceful bucket just when a graceful shutdown began before it started |
| EventSender.OneTurnAfterDone | v1/ao/internal/reporter/reporter_grpc.go:692-740 | once done is closed, the sender takes at most one more turn, and returns after it |
| EventSender.LostIsWhatIsHeld | v1/ao/internal/reporter/reporter_grpc.go:643-740 | in every run of a reporter, batches, what the bucket holds, and the queue are the messages accepted that are not too big, in order: what bucket and queue hold in the end is what is lost |
| EventSender.LastTurnLosesNothingIff | v1/ao/internal/reporter/reporter_grpc.go:692-740 | what the last turn leaves in bucket and queue, and exactly when that is nothing |
| EventSender.ClosingLosesTheBucket | v1/ao/internal/reporter/reporter_grpc.go:683-740 | so a shutdown can lose whatever is in the bucket |
| EventSender.OneMessageCanBeLeft | v1/ao/internal/reporter/reporter_grpc.go:692-740 | and, graceful or not, one message that did not fit |
| InvokeRpc.Connection.InvokeRPC | v1/ao/internal/reporter/reporter_grpc.go:1075-1198 | the loop takes the turns up to the first that ends it, for every sequence of answers; what is counted as sent, failed, and the address then |
| InvokeRpc.AtMost421Turns | v1/ao/internal/reporter/reporter_grpc.go:1075-1198 | it ends within 421 turns although a redirect to an address starts the retries again |
| InvokeRpc.Terminates | v1/ao/internal/reporter/reporter_grpc.go:1075-1198 | some turn within that bound ends it, whatever is answered |
| InvokeRpc.BoundIsReached | v1/ao/internal/reporter/reporter_grpc.go:1160-1172 | there are answers for which it takes all 421 |
| InvokeRpc.SucceedsIff | v1/ao/internal/reporter/reporter_grpc.go:1101-1149 | it succeeds just when its last turn finds the reporter open, the connection active and the request small enough, and the collector answers OK or there is no service key; no earlier turn was answered so |
| InvokeRpc.EndsAsAnswered | v1/ao/internal/reporter/reporter_grpc.go:1087-1197 | every outcome, exactly, told by the replies: when the reporter has closed, an answer that ends it, the twenty-first redirect, a method that is not retried, and twenty turns without a redirect to an address; one to no address does not count |
| InvokeRpc.LastMoveIsInForce | v1/ao/internal/reporter/reporter_grpc.go:1160-1172 | after a redirect to an address that address is in force until the next such redirect |
| InvokeRpc.TurnsWithCounted | v1/ao/internal/reporter/reporter_grpc.go:1151-1162 | redirects are counted once for each turn answered so, and messages as failed once for each turn put off or limited |
| InvokeRpc.SkippedCountsAsSent | v1/ao/internal/reporter/reporter_grpc.go:1108-1113 | without a service key messages count as sent although no call is made |
| InvokeRpc.TooBigIsNeverSent | v1/ao/internal/reporter/reporter_grpc.go:1104-1106 | a request above the limit never succeeds, and fails at the first turn that finds the connection active |
| InvokeRpc.NeverRetriedOnce | v1/ao/internal/reporter/reporter_grpc.go:1182-1188 | a method that is never retried takes one turn |
| SharedConnection.StepKeeps | v1/ao/internal/reporter/reporter_grpc.go:472-526 | every step of a call, a redirect or a reconnection keeps the invariants, under any lock order the read-write lock allows |
| SharedConnection.EveryInterleaving | v1/ao/internal/reporter/reporter_grpc.go:1101-1125 | an active connection is one dialed to the current address, every call used such a one, a timeout clears the flag only for the connection that timed out, and there is at most one dialing for each outage |
| SharedConnection.Reconnects | v1/ao/internal/reporter/reporter_grpc.go:490-526 | a goroutine that looks while the flag is clear and nobody has a lock puts a new connection to the current address in place, and sets the flag |
| SharedConnection.LeavesAlone | v1/ao/internal/reporter/reporter_grpc.go:490-526 | one that finds it set does not dial |
| SharedConnection.CallsWhereRedirected | v1/ao/internal/reporter/reporter_grpc.go:472-526 | after a redirect and the reconnecting that follows it, from any state with nobody in a lock, a call goes through a new connection dialed to the address of the redirect |
| TokenBucket.Bucket.SetRateCap | v1/ao/internal/reporter/oboe.go:92-101 | new rate and capacity, and as many tokens as there were, up to that |
| TokenBucket.Bucket.Update | v1/ao/internal/reporter/oboe.go:199-209 | a bucket that is not full ends with the lesser of its capacity and its tokens plus rate * time passed, the time cut to the longest duration; a clock that does not advance adds nothing; a full bucket keeps its old time |
| TokenBucket.Bucket.Consume | v1/ao/internal/reporter/oboe.go:188-197 | takes tokens just when there are enough after the refill, that written out as rate * time passed |
| TokenBucket.Bucket.Count | v1/ao/internal/reporter/oboe.go:163-186 | decides a request and counts it as the counters specify |
| TokenBucket.AlwaysWithinCapacity | v1/ao/internal/reporter/oboe.go:92-101 | 0 <= available <= capacity in every reachable state, whatever the clock does |
| TokenBucket.RateLimit | v1/ao/internal/reporter/oboe.go:188-209 | in any window of fixed rate and capacity at most capacity + rate * elapsed calls succeed, rate * elapsed written out, and one more if it begins with a full bucket |
| TokenBucket.BurstAdmits | v1/ao/internal/reporter/oboe.go:188-209 | and after a wait a burst of calls is admitted up to exactly the whole tokens there are then |
| TokenBucket.OneMoreThanCapacity | v1/ao/internal/reporter/oboe.go:199-202 | that one more does happen |
| TokenBucket.FullBucketExceedsIff | v1/ao/internal/reporter/oboe.go:199-209 | a full bucket for at least one token exceeds capacity + rate * elapsed in some window exactly when its rate is not zero and its last time lies before the window |
| RateCounts.NextKeeps | v1/ao/internal/metrics/metrics.go:161-209 | no interleaving of increments and swaps loses an increment or counts it twice |
| RateCounts.QuiescentTotals | v1/ao/internal/reporter/oboe.go:163-186 | with no call under way, all flushes and what is left give: requested = calls, traced + limited = calls sampled, sampled = calls without metadata, traced = calls admitted, through = those of them with metadata |
| Sampling.FlagStringToBin | v1/ao/internal/reporter/oboe.go:591-610 | each flag is set just when its name is listed |
| Sampling.WordAnd | v1/ao/internal/reporter/event.go:71-79 | combining flags is combining the words that hold them |
| Sampling.Settings.MergeLocalSetting | v1/ao/internal/reporter/oboe.go:429-448 | after merging the local configuration: each flag on exactly when both have it, given the override flag, or when the local one has it; the lower of the two rates, or the local one; and the source |
| Sampling.OverrideIsObeyed | v1/ao/internal/reporter/oboe.go:429-470 | with the override flag, no flag is ever switched on that the collector left out, and the rate is never above the collector's, for every local configuration and URL |
| Sampling.SwitchesNothingOnIff | v1/ao/internal/reporter/oboe.go:437-442 | without it, exactly when nothing is switched on; and the local rate holds |
| Sampling.UrlSwitchesTriggerTraceOnIff | v1/ao/internal/reporter/oboe.go:462-467 | trigger traces that are switched off locally are on after all exactly for an enabled URL, if the collector allows them or has no override |
| Sampling.ShouldSampleCounts | v1/ao/internal/reporter/oboe.go:585-589 | rate + 1 of the possible draws sample a request, so a rate of zero can |
| Sampling.DrawsThatSample | v1/ao/internal/reporter/oboe.go:309-347 | how many of the possible draws sample a request, for every kind of request |
| Sampling.SampleRequest | v1/ao/internal/reporter/oboe.go:281-359 | the decision, its response, exactly, for every kind of request, and what becomes of the bucket and its counters; capacity and rate change places for trigger traces |
| Sampling.DisabledIsNotSampled | v1/ao/internal/reporter/oboe.go:309-347 | what the collector disabled is not sampled, for every kind of request, configuration and URL, given the override flag |
| Sampling.DecideRequest | v1/ao/internal/reporter/oboe.go:279-359 | merging, the decision for the URL and sampling together: a request is traced only if the flags and the rate after both merges sample it |
| UrlFilters.Filters.GetTracingMode | v1/ao/internal/reporter/url.go:146-160 | the decision, and what the cache holds then: the first match, kept if there is room, and everything else that was not evicted |
| UrlFilters.Filters.LookupTracingMode | v1/ao/internal/reporter/url.go:162-169 | the loop finds the mode FirstMatch gives |
| UrlFilters.FirstMatchIs | v1/ao/internal/reporter/url.go:162-169 | that is the mode of the first filter that matches, or unknown when none does |
| UrlFilters.Filters.ReloadURLsConfig | v1/ao/internal/reporter/url.go:26-29 | new filters, and an empty cache |
| UrlFilters.EveryAnswerIsFirstMatch | v1/ao/internal/reporter/url.go:146-169 | after any lookups, evictions and clearing reloads, an answer is the mode of the first filter that matches |
| UrlFilters.ReloadAnswersIff | v1/ao/internal/reporter/url.go:122-129 | after a reload that does not clear the cache, an answer is right just when what was kept for the URL agrees with the new filters |
| UrlFilters.NamesAreDistinct | v1/ao/internal/reporter/url.go:39-51 | a mode survives being kept by its name |
| XTrace.OboeMetadata.Pack | v1/ao/internal/reporter/context.go:180-228 | for any lengths and version: header, IDs and flags at their places in the buffer, the rest of it, and where an ID is short, unchanged; or why not |
| XTrace.PackedIsInFront | v1/ao/internal/reporter/context.go:180-228 | for lengths there can be, the front of the buffer is header, IDs and flags without gaps |
| XTrace.OboeMetadata.Unpack | v1/ao/internal/reporter/context.go:230-269 | the fields read, or the error and the metadata as it was |
| XTrace.OboeMetadata.FromString | v1/ao/internal/reporter/context.go:271-299 | the metadata a string stands for, or the first of its errors |
| XTrace.ReadIffNothingWrong | v1/ao/internal/reporter/context.go:230-299 | which error a string meets, told by its characters, in the order of the checks; a twenty-byte task ID is refused exactly when all its digits are zeros |
| XTrace.FieldsInString | v1/ao/internal/reporter/context.go:230-299 | which digits of the string each byte of the IDs and the flags is read from |
| XTrace.OboeMetadata.ToString | v1/ao/internal/reporter/context.go:301-314 | upper-case digits of what Pack writes into a new buffer of 64 bytes, or why not; initialised metadata always fits |
| XTrace.HeaderBits | v1/ao/internal/reporter/context.go:213-221 | or-ing the fields of the header as bytes is adding them, for lengths there can be |
| XTrace.StringRoundTrip | v1/ao/internal/reporter/context.go:271-314 | reading what was written gives the metadata back, its IDs cut to their lengths, unless its task ID is twenty zeros |
| XTrace.StringReadBack | v1/ao/internal/reporter/context.go:271-314 | writing what was read gives the string back as far as it was read, in upper case and with the option bit cleared |
| XTrace.HexRoundTrip | v1/ao/internal/reporter/context.go:310-313 | hexadecimal digits, as in section 8 of RFC 4648, decode to the bytes they encode |
| MetricIds.IdIgnoresOrder | v1/ao/internal/metrics/metrics.go:742-756 | the ID of a metric does not depend on the order in which its tags come |
| MetricIds.IdIsWritten | v1/ao/internal/metrics/metrics.go:742-756 | for tags in any order: the name, true or false, and the texts key:value in their order, an ampersand after each |
| MetricIds.SortedIsUnique | v1/ao/internal/metrics/metrics.go:751-751 | there is only one way to put tag texts in order |
| MetricIds.SameIdIff | v1/ao/internal/metrics/metrics.go:742-756 | when names and tag texts hold no ampersand, IDs are the same exactly when name, kind and the multiset of tag texts are |
| MetricIds.IdsAreDistinct | v1/ao/internal/metrics/metrics.go:742-756 | when keys hold no colon either, exactly when name, kind and the multiset of tags are |
| MetricIds.JoinedInjective | v1/ao/internal/metrics/metrics.go:744-756 | parts that hold no separator can be told from what they are joined to |
| MetricIds.IdsCanCollide | v1/ao/internal/metrics/metrics.go:744-756 | with separators, different tags can have the same ID |
| Measurements.TransMap.IsWithinLimit | v1/ao/internal/metrics/metrics.go:282-297 | a name is stored or refused by the current capacity |
| Measurements.Measurements.Record | v1/ao/internal/metrics/metrics.go:768-787 | accepted exactly when there is a measurement, room, or it is one of the others; and the store after it |
| Measurements.Measurements.RecordAll | v1/ao/internal/metrics/metrics.go:733-788 | several IDs are recorded up to the first refused, those before it staying recorded |
| Measurements.AsManyAsFit | v1/ao/internal/metrics/metrics.go:733-788 | in closed form: the IDs that need a place are counted, and the first ones for which there is one are recorded, each as often as it comes; the first without is noted as an overflow and nothing after it is recorded |
| Measurements.Measurements.CopyAndReset | v1/ao/internal/metrics/metrics.go:403-417 | the copy is the table with its totals, and the store starts anew with the next capacity; an empty store keeps its table and capacity |
| Measurements.FlushThenRun | v1/ao/internal/metrics/metrics.go:403-427 | a flushed copy is not changed by anything recorded, set or flushed later |
| Measurements.RunAll | v1/ao/internal/metrics/metrics.go:245-427 | a run on the object is the run on its value, and every copy flushed on the way holds the totals it was flushed with to the end |
| Measurements.RecordedAllStaysCapped | v1/ao/internal/metrics/metrics.go:768-787 | names stay those of the IDs stored that are not others, within the capacity |
| Measurements.EveryRunIsCappedAndConserves | v1/ao/internal/metrics/metrics.go:245-297 | in every run the IDs stored are the names counted, within the capacity; and for every ID all copies and the store add up to what was accepted |
| Measurements.CapWaitsForFlush | v1/ao/internal/metrics/metrics.go:407-414 | a capacity set while the store is empty waits for the next flush of one that is not |

## Left out

- HistCodec.EncodeDecode: does not model compression, base64 and the byte layout of the header, because they are library calls around the payload; the length field is a parameter of `Decode`.
- HistCodec.Decode: a header for which Init does not return counts as not accepted, and the cookie is a parameter, as the word size it stands for.
- HistCodec.FillBuffer: does not model the panic on negative counts, which no recording of occurrences leaves behind.
- HdrHist.Hist.constructor: its configurations are those for which Init returns; for the others WithConfig has the panics, and a least discernible value from 2^62 with a range that is not positive is left out.
- ZigZag.ZigZagRoundTrip: for values of nine bytes it states when the code as written fails, so histograms are restored for counts below 2^55 only.
- SqlSanitizer.Turn: letters, digits, spaces and upper case are any predicates and function, because they are Unicode tables.
- SqlPieces.EveryStatement: an ampersand is no letter and nothing else has it as its upper case, as in those tables; statements with dollar quotes are in WholeStatement, if they are single-byte, short enough to be whole and their quotes are closed.
- TraceGraph.EveryRunIsJoined: op IDs are fresh; edges that callers ask for are kept apart from an event's own, because they can lead anywhere; explicit timestamps, explicit X-Trace IDs and child profiles are left out.
- Spans.Tracing.EndTrace: the KV pairs that an HTTP transaction adds are left out; they come in pairs and are no edges.
- EventSender.LostIsWhatIsHeld: batches that are still in the channel to the batch sender at a shutdown are not modelled; what is lost here is lost before that.
- InvokeRpc.Connection.InvokeRPC: whether the connection is active in a turn is a parameter, because other goroutines change it; SharedConnection has their steps.
- SharedConnection.EveryInterleaving: does not model closing the connection at shutdown, which leaves the active flag set; connecting and redirecting are steps rather than methods, because what matters is how they interleave.
- TokenBucket.RateLimit: numbers are exact and the clock does not go back; infinite rates and capacities are left out.
- UrlFilters.Filters.LookupTracingMode: a filter matches by any predicate, because regular expressions are a library; one that does not compile is not modelled.
- Measurements.Measurements.Record: sums are exact numbers, and the ID is given; MetricIds has how it is made.
- Counts and totals of histograms are exact numbers and do not wrap at 2^63.
- Quantile ranks and percentages are exact, where the program rounds to 64-bit floats; logarithms and powers of ten are exact integers.
- Start and end times, Mean, Stdev, AllVals and RecordCorrected of histograms: easy members.
- The retry of a refused HTTP span under the name "other", and the messages built from measurements.
- Dialing, TLS, proxies, the UDP and serverless reporters, and the HTTP, gRPC, Lambda and OpenTracing wrappers: input and output.
- Configuration loading, host metadata, HMAC signatures and logging.
- Liveness at shutdown, which depends on the scheduler.
