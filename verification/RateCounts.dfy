/** The counters of requests, which any number of requests update while they are flushed. */
module RateCounts {

  datatype Counts = Counts(requested: nat, sampled: nat, limited: nat, traced: nat, through: nat)

  const NONE := Counts(0, 0, 0, 0, 0)

  function Plus(a: Counts, b: Counts): Counts {
    Counts(a.requested + b.requested, a.sampled + b.sampled, a.limited + b.limited, a.traced + b.traced,
           a.through + b.through)
  }

  datatype Counter = Requested | Sampled | Limited | Traced | Through

  /** Only that counter. */
  function Only(c: Counts, k: Counter): Counts {
    match k
    case Requested => NONE.(requested := c.requested)
    case Sampled => NONE.(sampled := c.sampled)
    case Limited => NONE.(limited := c.limited)
    case Traced => NONE.(traced := c.traced)
    case Through => NONE.(through := c.through)
  }

  /** All but that counter. */
  function Without(c: Counts, k: Counter): Counts {
    match k
    case Requested => c.(requested := 0)
    case Sampled => c.(sampled := 0)
    case Limited => c.(limited := 0)
    case Traced => c.(traced := 0)
    case Through => c.(through := 0)
  }

  /** What a request asks of count. */
  datatype Request = Request(sampled: bool, hasMetadata: bool, rateLimit: bool)

  /** How far a call of count has come: which increment is next, or the tokens it needs. */
  datatype Pc = AtRequested | AtSampled | AtTokens | AtLimited | AtThrough | AtTraced | Done(result: bool)

  datatype Call = Call(request: Request, pc: Pc)

  function Bit(b: bool): nat {
    if b then 1 else 0
  }

  /** Which increment the call makes now, if it makes one. */
  function Increment(c: Call): Counts {
    Counts(Bit(c.pc == AtRequested), Bit(c.pc == AtSampled), Bit(c.pc == AtLimited), Bit(c.pc == AtTraced),
           Bit(c.pc == AtThrough))
  }

  function AfterTokens(r: Request): Pc {
    if r.hasMetadata then AtThrough else AtTraced
  }

  function AfterSampled(r: Request): Pc {
    if !r.sampled then Done(false) else if r.rateLimit then AtTokens else AfterTokens(r)
  }

  /** Where the call goes on; ok says whether there was a token. */
  function NextPc(c: Call, ok: bool): Pc {
    match c.pc
    case AtRequested => if c.request.hasMetadata then AfterSampled(c.request) else AtSampled
    case AtSampled => AfterSampled(c.request)
    case AtTokens => if ok then AfterTokens(c.request) else AtLimited
    case AtLimited => Done(false)
    case AtThrough => AtTraced
    case AtTraced => Done(true)
    case Done(result) => c.pc
  }

  /** A flush swaps the counters to zero one after the other; taken is what it has so far. */
  datatype Flush = Flush(taken: Counts, swapped: nat)

  const ORDER := [Requested, Sampled, Limited, Traced, Through]

  datatype State = State(live: Counts, calls: seq<Call>, flushes: seq<Flush>)

  datatype Step = Begin(request: Request) | Advance(call: nat, ok: bool) | BeginFlush | Swap(flush: nat)

  predicate Enabled(s: State, step: Step) {
    match step
    case Begin(_) => true
    case Advance(k, _) => k < |s.calls|
    case BeginFlush => true
    case Swap(f) => f < |s.flushes| && s.flushes[f].swapped < |ORDER|
  }

  function Next(s: State, step: Step): State
    requires Enabled(s, step)
  {
    match step
    case Begin(r) => s.(calls := s.calls + [Call(r, AtRequested)])
    case Advance(k, ok) =>
      var c := s.calls[k];
      s.(live := Plus(s.live, Increment(c)), calls := s.calls[k := c.(pc := NextPc(c, ok))])
    case BeginFlush => s.(flushes := s.flushes + [Flush(NONE, 0)])
    case Swap(f) =>
      var b := s.flushes[f];
      var k := ORDER[b.swapped];
      s.(live := Without(s.live, k), flushes := s.flushes[f := Flush(Plus(b.taken, Only(s.live, k)), b.swapped + 1)])
  }

  // ---------------------------------------------------------------- conservation

  /** What a call has counted by where it is. */
  function Counted(c: Call): Counts {
    var r := c.request;
    Counts(Bit(c.pc != AtRequested), Bit(!r.hasMetadata && c.pc != AtRequested && c.pc != AtSampled),
           Bit(c.pc == Done(false) && r.sampled), Bit(c.pc == Done(true)),
           Bit((c.pc == AtTraced || c.pc == Done(true)) && r.hasMetadata))
  }

  /** What a call counts in all. */
  function CountedBy(r: Request, result: bool): (c: Counts)
    ensures c.requested == 1 && (c.sampled == 1 <==> !r.hasMetadata) && (c.limited == 1 <==> r.sampled && !result)
    ensures (c.traced == 1 <==> result) && (c.through == 1 <==> result && r.hasMetadata)
    ensures c.sampled <= 1 && c.limited <= 1 && c.traced <= 1 && c.through <= 1
  {
    Counted(Call(r, Done(result)))
  }

  /** Where a call can be, for what it asks; only one that is rate limited ends as limited. */
  predicate Plausible(c: Call) {
    var r := c.request;
    match c.pc
    case AtSampled => !r.hasMetadata
    case AtTokens => r.sampled && r.rateLimit
    case AtLimited => r.sampled && r.rateLimit
    case AtThrough => r.sampled && r.hasMetadata
    case AtTraced => r.sampled
    case Done(result) => (result ==> r.sampled) && (r.sampled && !result ==> r.rateLimit)
    case _ => true
  }

  function AllCounted(calls: seq<Call>): Counts {
    if calls == [] then NONE else Plus(AllCounted(calls[..|calls| - 1]), Counted(calls[|calls| - 1]))
  }

  function AllTaken(flushes: seq<Flush>): Counts {
    if flushes == [] then NONE else Plus(AllTaken(flushes[..|flushes| - 1]), flushes[|flushes| - 1].taken)
  }

  lemma PlusMiddle(a: Counts, b: Counts, more: Counts)
    ensures Plus(Plus(a, more), b) == Plus(Plus(a, b), more) == Plus(a, Plus(b, more))
    ensures Plus(a, NONE) == a
  {
  }

  lemma {:induction false} CountedChange(calls: seq<Call>, k: nat, c: Call, more: Counts)
    requires k < |calls| && Counted(c) == Plus(Counted(calls[k]), more)
    ensures AllCounted(calls[k := c]) == Plus(AllCounted(calls), more)
  {
    hide Counted, Plus;
    var n := |calls| - 1;
    var changed := calls[k := c];
    PlusMiddle(AllCounted(calls[..n]), Counted(calls[n]), more);
    if k == n {
      assert changed[..n] == calls[..n];
    } else {
      assert changed[..n] == calls[..n][k := c];
      CountedChange(calls[..n], k, c, more);
    }
  }

  lemma {:induction false} TakenChange(flushes: seq<Flush>, k: nat, b: Flush, more: Counts)
    requires k < |flushes| && b.taken == Plus(flushes[k].taken, more)
    ensures AllTaken(flushes[k := b]) == Plus(AllTaken(flushes), more)
  {
    hide Plus;
    var n := |flushes| - 1;
    var changed := flushes[k := b];
    PlusMiddle(AllTaken(flushes[..n]), flushes[n].taken, more);
    if k == n {
      assert changed[..n] == flushes[..n];
    } else {
      assert changed[..n] == flushes[..n][k := b];
      TakenChange(flushes[..n], k, b, more);
    }
  }

  lemma AdvanceCounts(c: Call, ok: bool)
    requires Plausible(c)
    ensures Plausible(c.(pc := NextPc(c, ok)))
    ensures Counted(c.(pc := NextPc(c, ok))) == Plus(Counted(c), Increment(c))
  {
  }

  lemma SwapTakes(live: Counts, k: Counter, taken: Counts)
    ensures Plus(Without(live, k), Plus(taken, Only(live, k))) == Plus(live, taken)
  {
  }

  /** Nothing is lost or counted twice: live counters and all flushes together, finished or
      not, are what the calls have counted. */
  ghost predicate Conserved(s: State) {
    && Plus(s.live, AllTaken(s.flushes)) == AllCounted(s.calls)
    && forall k | 0 <= k < |s.calls| :: Plausible(s.calls[k])
  }

  lemma BeginKeeps(s: State, r: Request)
    requires Conserved(s)
    ensures Conserved(Next(s, Begin(r)))
  {
    hide Plus;
    var calls := Next(s, Begin(r)).calls;
    assert calls[..|calls| - 1] == s.calls;
    PlusMiddle(AllCounted(s.calls), NONE, NONE);
  }

  lemma AdvanceKeeps(s: State, k: nat, ok: bool)
    requires Conserved(s) && k < |s.calls|
    ensures Conserved(Next(s, Advance(k, ok)))
  {
    hide Plus, Counted, Plausible, Increment, NextPc;
    var c, calls := s.calls[k], Next(s, Advance(k, ok)).calls;
    AdvanceCounts(c, ok);
    CountedChange(s.calls, k, calls[k], Increment(c));
    PlusMiddle(s.live, AllTaken(s.flushes), Increment(c));
  }

  lemma BeginFlushKeeps(s: State)
    requires Conserved(s)
    ensures Conserved(Next(s, BeginFlush))
  {
    hide Plus, Counted, Plausible;
    var flushes := Next(s, BeginFlush).flushes;
    assert flushes[..|flushes| - 1] == s.flushes;
    PlusMiddle(AllTaken(s.flushes), NONE, NONE);
  }

  lemma SwapKeeps(s: State, f: nat)
    requires Conserved(s) && Enabled(s, Swap(f))
    ensures Conserved(Next(s, Swap(f)))
  {
    hide Plus, Counted, Plausible, Only, Without;
    var k, flushes := ORDER[s.flushes[f].swapped], Next(s, Swap(f)).flushes;
    TakenChange(s.flushes, f, flushes[f], Only(s.live, k));
    SwapTakes(s.live, k, AllTaken(s.flushes));
  }

  lemma NextKeeps(s: State, step: Step)
    requires Conserved(s) && Enabled(s, step)
    ensures Conserved(Next(s, step))
  {
    match step {
      case Begin(r) => BeginKeeps(s, r);
      case Advance(k, ok) => AdvanceKeeps(s, k, ok);
      case BeginFlush => BeginFlushKeeps(s);
      case Swap(f) => SwapKeeps(s, f);
    }
  }

  const START := State(NONE, [], [])

  /** s' is reached from s in any interleaving of calls and flushes. */
  ghost predicate Leads(s: State, steps: seq<Step>, s': State)
    decreases |steps|
  {
    if steps == [] then s' == s else Enabled(s, steps[0]) && Leads(Next(s, steps[0]), steps[1..], s')
  }

  lemma {:induction false} RunConserves(s: State, steps: seq<Step>, s': State)
    requires Conserved(s) && Leads(s, steps, s')
    ensures Conserved(s')
    decreases |steps|
  {
    hide Conserved, Next;
    if steps == [] {
    } else {
      NextKeeps(s, steps[0]);
      RunConserves(Next(s, steps[0]), steps[1..], s');
    }
  }

  lemma EmptyConserves(s: State)
    requires s.live == NONE && s.calls == [] && s.flushes == []
    ensures Conserved(s)
  {
  }

  lemma EveryRunConserves(steps: seq<Step>, s: State)
    requires Leads(START, steps, s)
    ensures Conserved(s)
  {
    hide AllCounted, AllTaken, Conserved, Leads, Next;
    EmptyConserves(START);
    RunConserves(START, steps, s);
  }

  // ---------------------------------------------------------------- quiescence

  predicate Quiescent(s: State) {
    forall k | 0 <= k < |s.calls| :: s.calls[k].pc.Done?
  }

  function SampledCalls(calls: seq<Call>): nat {
    if calls == [] then 0
    else SampledCalls(calls[..|calls| - 1]) + (if calls[|calls| - 1].request.sampled then 1 else 0)
  }

  function NewCalls(calls: seq<Call>): nat {
    if calls == [] then 0
    else NewCalls(calls[..|calls| - 1]) + (if calls[|calls| - 1].request.hasMetadata then 0 else 1)
  }

  function AdmittedCalls(calls: seq<Call>): nat {
    if calls == [] then 0
    else AdmittedCalls(calls[..|calls| - 1]) + (if calls[|calls| - 1].pc == Done(true) then 1 else 0)
  }

  function ContinuedCalls(calls: seq<Call>): nat {
    if calls == [] then 0
    else
      var last := calls[|calls| - 1];
      ContinuedCalls(calls[..|calls| - 1]) + (if last.pc == Done(true) && last.request.hasMetadata then 1 else 0)
  }

  lemma {:induction false} TotalsOf(calls: seq<Call>)
    requires forall k | 0 <= k < |calls| :: Plausible(calls[k]) && calls[k].pc.Done?
    ensures var t := AllCounted(calls);
      && t.requested == |calls| && t.traced + t.limited == SampledCalls(calls) && t.sampled == NewCalls(calls)
      && t.traced == AdmittedCalls(calls) && t.through == ContinuedCalls(calls) <= t.traced
  {
    if calls == [] {
    } else {
      TotalsOf(calls[..|calls| - 1]);
      assert Plausible(calls[|calls| - 1]);
    }
  }

  /** Once no call is under way, what all flushes took and what is left adds up: every call was
      requested, those to be sampled were either traced or limited, those without metadata
      sampled, and those admitted traced, and also counted as through if they had metadata, whatever
      came between. */
  lemma QuiescentTotals(steps: seq<Step>, s: State)
    requires Leads(START, steps, s) && Quiescent(s)
    ensures var t := Plus(s.live, AllTaken(s.flushes));
      && t.requested == |s.calls| && t.traced + t.limited == SampledCalls(s.calls) && t.sampled == NewCalls(s.calls)
      && t.traced == AdmittedCalls(s.calls) && t.through == ContinuedCalls(s.calls) <= t.traced
  {
    EveryRunConserves(steps, s);
    TotalsOf(s.calls);
  }
}
