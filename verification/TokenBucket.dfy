/** The token bucket that limits the rate of traces. Time is in seconds, on a clock that does
    not go backwards; numbers are exact. */
module TokenBucket {
  import opened RateCounts

  /** The longest duration between two times; a longer one reads as this. */
  const MAX_DURATION := 9223372036.854775807

  datatype Tokens = Tokens(ratePerSec: real, capacity: real, available: real, last: real)

  function Min(a: real, b: real): real {
    if a <= b then a else b
  }

  function Since(now: real, last: real): (d: real)
    ensures last <= now ==> 0.0 <= d <= now - last
  {
    if now - last > MAX_DURATION then MAX_DURATION
    else if now - last < -MAX_DURATION then -MAX_DURATION
    else now - last
  }

  /** Tokens generated in a time. */
  function Generated(ratePerSec: real, elapsed: real): real {
    ratePerSec * elapsed
  }

  /** Adds what was generated since the last time; a bucket that is full is left as it is, with its
      last time too. */
  function Updated(b: Tokens, now: real): Tokens {
    if b.available >= b.capacity then b
    else
      var delta := Since(now, b.last);
      b.(last := now,
         available := if delta <= 0.0 then b.available
                      else Min(b.capacity, b.available + Generated(b.ratePerSec, delta)))
  }

  predicate Admits(b: Tokens, size: real, now: real) {
    Updated(b, now).available >= size
  }

  function Consumed(b: Tokens, size: real, now: real): Tokens {
    var u := Updated(b, now);
    if u.available >= size then u.(available := u.available - size) else u
  }

  function WithRateCap(b: Tokens, rate: real, cap: real): Tokens {
    b.(ratePerSec := rate, capacity := cap, available := if b.available > cap then cap else b.available)
  }

  class Bucket {
    var ratePerSec: real
    var capacity: real
    var available: real
    var last: real
    var counts: Counts

    function Abs(): Tokens
      reads this
    {
      Tokens(ratePerSec, capacity, available, last)
    }

    constructor ()
      ensures Abs() == Tokens(0.0, 0.0, 0.0, 0.0) && counts == NONE
    {
      ratePerSec, capacity, available, last := 0.0, 0.0, 0.0, 0.0;
      counts := NONE;
    }

    method Reset()
      modifies this`ratePerSec, this`capacity, this`available, this`last
      ensures Abs() == Tokens(0.0, 0.0, 0.0, 0.0)
    {
      ratePerSec := 0.0;
      capacity := 0.0;
      available := 0.0;
      last := 0.0;
    }

    method SetRateCap(rate: real, cap: real)
      modifies this`ratePerSec, this`capacity, this`available
      ensures Abs() == WithRateCap(old(Abs()), rate, cap)
      ensures ratePerSec == rate && capacity == cap
      ensures available == if old(available) > cap then cap else old(available)
    {
      ratePerSec := rate;
      capacity := cap;
      if available > capacity {
        available := capacity;
      }
    }

    method Update(now: real)
      modifies this`available, this`last
      ensures Abs() == Updated(old(Abs()), now)
      ensures old(available) >= capacity ==> available == old(available) && last == old(last)
      ensures old(available) < capacity ==> last == now
      ensures old(available) < capacity && now <= old(last) ==> available == old(available)
      ensures old(available) < capacity && 0.0 < now - old(last) <= MAX_DURATION ==>
        var refilled := old(available) + ratePerSec * (now - old(last));
        available == if refilled <= capacity then refilled else capacity
      ensures old(available) < capacity && MAX_DURATION < now - old(last) ==>
        var refilled := old(available) + ratePerSec * MAX_DURATION;
        available == if refilled <= capacity then refilled else capacity
    {
      if available < capacity {
        var delta := Since(now, last);
        last := now;
        if delta <= 0.0 {
          return;
        }
        var newTokens := Generated(ratePerSec, delta);
        available := Min(capacity, available + newTokens);
      }
    }

    method Consume(size: real, now: real) returns (ok: bool)
      modifies this`available, this`last
      ensures Abs() == Consumed(old(Abs()), size, now) && ok == Admits(old(Abs()), size, now)
      ensures old(available) >= capacity ==>
        && (ok <==> size <= old(available))
        && available == old(available) - (if ok then size else 0.0) && last == old(last)
      ensures old(available) < capacity && 0.0 < now - old(last) <= MAX_DURATION ==>
        var refilled := old(available) + ratePerSec * (now - old(last));
        && (ok <==> size <= refilled && size <= capacity)
        && available == (if refilled <= capacity then refilled else capacity) - (if ok then size else 0.0)
        && last == now
      ensures old(available) < capacity && now <= old(last) ==>
        && (ok <==> size <= old(available))
        && available == old(available) - (if ok then size else 0.0) && last == now
    {
      ghost var refilled := available + ratePerSec * (now - last);
      ghost var some := available < capacity && 0.0 < now - last <= MAX_DURATION;
      hide Updated, Generated, Min, Since;
      Update(now);
      assert some ==> available == if refilled <= capacity then refilled else capacity;
      if available >= size {
        available := available - size;
        return true;
      }
      return false;
    }

    /** Decides a request and counts it; a token is taken only for one that is to be sampled and
        is rate limited. */
    method Count(sampled: bool, hasMetadata: bool, rateLimit: bool, now: real) returns (ok: bool)
      modifies this`available, this`last, this`counts
      ensures ok <==> sampled && (rateLimit ==> Admits(old(Abs()), 1.0, now))
      ensures Abs() == if sampled && rateLimit then Consumed(old(Abs()), 1.0, now) else old(Abs())
      ensures counts == Plus(old(counts), CountedBy(Request(sampled, hasMetadata, rateLimit), ok))
    {
      counts := counts.(requested := counts.requested + 1);
      if !hasMetadata {
        counts := counts.(sampled := counts.sampled + 1);
      }
      if !sampled {
        return sampled;
      }
      if rateLimit {
        var admitted := Consume(1.0, now);
        if !admitted {
          counts := counts.(limited := counts.limited + 1);
          return false;
        }
      }
      if hasMetadata {
        counts := counts.(through := counts.through + 1);
      }
      counts := counts.(traced := counts.traced + 1);
      return sampled;
    }

    method FlushRateCounts() returns (batch: Counts)
      modifies this`counts
      ensures batch == old(counts) && counts == NONE
    {
      batch := counts;
      counts := NONE;
    }
  }

  // ---------------------------------------------------------------- every reachable state

  /** The settings pass on no negative rate or capacity. */
  datatype Op = SetRateCap(rate: real, cap: real) | Consume(size: real, now: real) | Reset

  predicate Legal(op: Op) {
    match op
    case SetRateCap(rate, cap) => rate >= 0.0 && cap >= 0.0
    case Consume(size, now) => size >= 0.0
    case Reset => true
  }

  function After(b: Tokens, op: Op): Tokens {
    match op
    case SetRateCap(rate, cap) => WithRateCap(b, rate, cap)
    case Consume(size, now) => Consumed(b, size, now)
    case Reset => Tokens(0.0, 0.0, 0.0, 0.0)
  }

  function AfterAll(b: Tokens, ops: seq<Op>): Tokens {
    if ops == [] then b else After(AfterAll(b, ops[..|ops| - 1]), ops[|ops| - 1])
  }

  predicate Sound(b: Tokens) {
    b.ratePerSec >= 0.0 && 0.0 <= b.available <= b.capacity
  }

  lemma GeneratedIs(rate: real, elapsed: real)
    ensures Generated(rate, elapsed) == rate * elapsed
  {
  }

  lemma GeneratedNotNegative(rate: real, elapsed: real)
    requires rate >= 0.0 && elapsed >= 0.0
    ensures Generated(rate, elapsed) >= 0.0
  {
  }

  lemma UpdatedKeeps(b: Tokens, now: real)
    requires Sound(b)
    ensures Sound(Updated(b, now)) && Updated(b, now).available >= b.available
    ensures Updated(b, now).ratePerSec == b.ratePerSec && Updated(b, now).capacity == b.capacity
  {
    hide Generated;
    var delta := Since(now, b.last);
    if delta > 0.0 { GeneratedNotNegative(b.ratePerSec, delta); }
  }

  /** Whatever the clock does, there are never fewer tokens than none, nor more than the
      capacity, even just after that has been lowered. */
  lemma {:induction false} AlwaysWithinCapacity(ops: seq<Op>)
    requires forall op | op in ops :: Legal(op)
    ensures Sound(AfterAll(Tokens(0.0, 0.0, 0.0, 0.0), ops))
  {
    if ops == [] {
    } else {
      var b := AfterAll(Tokens(0.0, 0.0, 0.0, 0.0), ops[..|ops| - 1]);
      var op := ops[|ops| - 1];
      AlwaysWithinCapacity(ops[..|ops| - 1]);
      assert Legal(op);
      if op.Consume? { UpdatedKeeps(b, op.now); }
    }
  }

  // ---------------------------------------------------------------- the rate limit

  predicate Ordered(times: seq<real>) {
    forall i, j | 0 <= i < j < |times| :: times[i] <= times[j]
  }

  /** Calls in a window of that length. */
  predicate Window(times: seq<real>, elapsed: real) {
    times != [] && Ordered(times) && times[|times| - 1] == times[0] + elapsed
  }

  function AdmitsOne(b: Tokens, now: real): nat {
    if Admits(b, 1.0, now) then 1 else 0
  }

  /** How many of the calls that consume one token, at these times, succeed. */
  function Admitted(b: Tokens, times: seq<real>): nat
    decreases |times|
  {
    if times == [] then 0
    else AdmitsOne(b, times[0]) + Admitted(Consumed(b, 1.0, times[0]), times[1..])
  }

  lemma GeneratedTogether(rate: real, a: real, b: real, c: real)
    ensures Generated(rate, b - a) + Generated(rate, c - b) == Generated(rate, c - a)
  {
  }

  lemma GeneratedInLonger(rate: real, a: real, b: real)
    requires rate >= 0.0 && a <= b
    ensures Generated(rate, a) <= Generated(rate, b)
  {
    GeneratedNotNegative(rate, b - a);
  }

  predicate Within(times: seq<real>, start: real, end: real) {
    forall i | 0 <= i < |times| :: start <= times[i] <= end
  }

  lemma TailWithin(times: seq<real>, start: real, end: real)
    requires times != [] && Ordered(times) && Within(times, start, end)
    ensures Ordered(times[1..]) && Within(times[1..], times[0], end)
  {
  }

  /** Tokens there can be by the end, when none are taken. */
  function Budget(b: Tokens, end: real): real {
    b.available + Generated(b.ratePerSec, end - b.last)
  }

  predicate NotFull(b: Tokens) {
    b.available < b.capacity || b.capacity < 1.0
  }

  lemma UpdateSpends(b: Tokens, now: real, end: real)
    requires Sound(b) && b.last <= now <= end && b.available < b.capacity
    ensures Budget(Updated(b, now), end) <= Budget(b, end)
  {
    hide Generated;
    var delta := Since(now, b.last);
    GeneratedInLonger(b.ratePerSec, delta, now - b.last);
    GeneratedTogether(b.ratePerSec, b.last, now, end);
  }

  /** What a call does once the bucket is up to date. */
  function Taken(u: Tokens): Tokens {
    if u.available >= 1.0 then u.(available := u.available - 1.0) else u
  }

  lemma TakenSpends(u: Tokens, end: real)
    ensures Budget(Taken(u), end) == Budget(u, end) - (if u.available >= 1.0 then 1.0 else 0.0)
  {
    hide Generated;
  }

  lemma CallKeeps(b: Tokens, now: real)
    requires Sound(b) && NotFull(b) && b.last <= now
    ensures var b' := Consumed(b, 1.0, now);
      && b' == Taken(Updated(b, now)) && Sound(b') && NotFull(b') && b'.last <= now
      && b'.ratePerSec == b.ratePerSec && b'.capacity == b.capacity
  {
    hide Generated;
    UpdatedKeeps(b, now);
  }

  /** A call takes its token out of the budget. */
  lemma CallSpends(b: Tokens, now: real, end: real)
    requires Sound(b) && NotFull(b) && b.last <= now <= end
    ensures AdmitsOne(b, now) as real + Budget(Consumed(b, 1.0, now), end) <= Budget(b, end)
  {
    hide Generated;
    CallKeeps(b, now);
    TakenSpends(Updated(b, now), end);
    if b.available < b.capacity { UpdateSpends(b, now, end); } else { assert Updated(b, now) == b; }
  }

  lemma {:induction false} LimitedFrom(b: Tokens, times: seq<real>, start: real, end: real)
    requires Sound(b) && NotFull(b) && Ordered(times) && Within(times, start, end) && b.last <= start <= end
    ensures Admitted(b, times) as real <= Budget(b, end)
    decreases |times|
  {
    hide Generated;
    if times == [] {
      GeneratedNotNegative(b.ratePerSec, end - b.last);
    } else {
      TailWithin(times, start, end);
      CallKeeps(b, times[0]);
      CallSpends(b, times[0], end);
      LimitedFrom(Consumed(b, 1.0, times[0]), times[1..], times[0], end);
    }
  }

  /** A bucket just updated: one call now, and the rest later. */
  lemma FirstCall(u: Tokens, rest: seq<real>, now: real, end: real)
    requires Sound(u) && u.last == now <= end && Ordered(rest) && Within(rest, now, end) && NotFull(Taken(u))
    ensures (if u.available >= 1.0 then 1.0 else 0.0) + Admitted(Taken(u), rest) as real <= Budget(u, end)
  {
    hide Generated;
    TakenSpends(u, end);
    LimitedFrom(Taken(u), rest, now, end);
  }

  lemma FullBudget(u: Tokens, now: real, start: real, end: real)
    requires Sound(u) && u.last == now && start <= now <= end
    ensures Budget(u, end) <= u.capacity + Generated(u.ratePerSec, end - start)
  {
    hide Generated;
    GeneratedInLonger(u.ratePerSec, end - now, end - start);
  }

  lemma {:induction false} NoneAdmitted(b: Tokens, times: seq<real>)
    requires Sound(b) && (times == [] || b.available == b.capacity < 1.0)
    ensures Admitted(b, times) == 0
    decreases |times|
  {
    if times == [] {
    } else {
      NoneAdmitted(Consumed(b, 1.0, times[0]), times[1..]);
    }
  }

  /** The last time of a full bucket is stale, so the first update after that can fill it. */
  lemma LimitedFromStale(b: Tokens, times: seq<real>, start: real, end: real)
    requires Sound(b) && NotFull(b) && Ordered(times) && Within(times, start, end) && b.last <= start <= end
    ensures Admitted(b, times) as real <= b.capacity + Generated(b.ratePerSec, end - start)
  {
    hide Generated;
    if b.available == b.capacity || times == [] {
      NoneAdmitted(b, times);
      GeneratedNotNegative(b.ratePerSec, end - start);
    } else {
      var now := times[0];
      var u := Updated(b, now);
      CallKeeps(b, now);
      UpdatedKeeps(b, now);
      TailWithin(times, start, end);
      assert u.last == now;
      FirstCall(u, times[1..], now, end);
      FullBudget(u, now, start, end);
    }
  }

  lemma FullLimited(b: Tokens, times: seq<real>, start: real, end: real)
    requires Sound(b) && b.available == b.capacity >= 1.0 && b.last <= start <= end
    requires Ordered(times) && times != [] && times[0] == start && Within(times, start, end)
    ensures Admitted(b, times) as real <= b.capacity + Generated(b.ratePerSec, end - start) + 1.0
  {
    hide Generated;
    var b' := b.(available := b.available - 1.0);
    TailWithin(times, start, end);
    assert Consumed(b, 1.0, start) == b' && Admitted(b, times) == 1 + Admitted(b', times[1..]);
    LimitedFromStale(b', times[1..], start, end);
  }

  lemma LimitedInWindow(b: Tokens, times: seq<real>, elapsed: real)
    requires Sound(b) && Window(times, elapsed) && b.last <= times[0]
    ensures Admitted(b, times) as real
         <= b.capacity + Generated(b.ratePerSec, elapsed) + (if b.available == b.capacity then 1.0 else 0.0)
  {
    hide Generated;
    var start, end := times[0], times[|times| - 1];
    assert end - start == elapsed;
    assert Within(times, start, end);
    if NotFull(b) {
      LimitedFromStale(b, times, start, end);
    } else {
      FullLimited(b, times, start, end);
    }
  }

  /** The rate limit: in any window in which rate and capacity stay as they are, and the clock
      does not go back, at most capacity + rate * elapsed calls succeed, and one more if the
      window begins with a full bucket. */
  lemma RateLimit(b: Tokens, times: seq<real>, elapsed: real)
    requires Sound(b) && Window(times, elapsed) && b.last <= times[0]
    ensures Admitted(b, times) as real
         <= b.capacity + b.ratePerSec * elapsed + (if b.available == b.capacity then 1.0 else 0.0)
  {
    hide Generated, Admitted, Window, Sound;
    GeneratedIs(b.ratePerSec, elapsed);
    LimitedInWindow(b, times, elapsed);
  }

  /** That one more does happen: two calls at once on a bucket for one token. */
  lemma OneMoreThanCapacity()
    ensures var b := Tokens(1.0, 1.0, 1.0, 0.0);
      Sound(b) && Admitted(b, [100.0, 100.0]) == 2
  {
    var b := Tokens(1.0, 1.0, 1.0, 0.0);
    var b1 := Consumed(b, 1.0, 100.0);
    assert b1 == Tokens(1.0, 1.0, 0.0, 0.0);
    assert Updated(b1, 100.0).available == 1.0;
    var times := [100.0, 100.0];
    assert times[1..] == [100.0] && times[1..][1..] == [];
    assert Admitted(b1, times[1..]) == 1;
  }

  /** n calls at one time. */
  function Burst(now: real, n: nat): (times: seq<real>)
    ensures |times| == n && forall i | 0 <= i < n :: times[i] == now
  {
    if n == 0 then [] else [now] + Burst(now, n - 1)
  }

  /** What a burst leaves. */
  function Burnt(b: Tokens, n: nat): Tokens {
    b.(available := b.available - n as real)
  }

  /** What matters of a bucket is what it is brought up to date to. */
  lemma SameFirst(a: Tokens, b: Tokens, times: seq<real>)
    requires times != [] && Updated(a, times[0]) == Updated(b, times[0])
    ensures Admitted(a, times) == Admitted(b, times)
  {
  }

  lemma {:induction false} BurstTakes(u: Tokens, n: nat)
    requires Sound(u)
    ensures Admitted(u, Burst(u.last, n)) == if n as real <= u.available then n else u.available.Floor
    decreases n
  {
    hide Generated;
    if n == 0 {
    } else {
      var times := Burst(u.last, n);
      assert times[1..] == Burst(u.last, n - 1);
      if u.available >= 1.0 {
        assert Consumed(u, 1.0, u.last) == Burnt(u, 1);
        BurstTakes(Burnt(u, 1), n - 1);
        assert (u.available - 1.0).Floor == u.available.Floor - 1;
      } else {
        assert Consumed(u, 1.0, u.last) == u;
        BurstTakes(u, n - 1);
      }
    }
  }

  lemma UpdatedAfter(b: Tokens, wait: real)
    requires Sound(b) && b.available < b.capacity && 0.0 < wait <= MAX_DURATION
    ensures Updated(b, b.last + wait)
         == b.(last := b.last + wait, available := Min(b.capacity, b.available + Generated(b.ratePerSec, wait)))
  {
    hide Generated;
    assert b.last + wait - b.last == wait;
  }

  /** After a wait, a bucket that is not full admits as many of the calls of a burst as there are
      whole tokens, with those generated meanwhile up to the capacity. */
  lemma BurstAdmits(b: Tokens, wait: real, n: nat)
    requires Sound(b) && b.available < b.capacity && 0.0 < wait <= MAX_DURATION
    ensures var refilled := b.available + b.ratePerSec * wait;
      var tokens := if refilled <= b.capacity then refilled else b.capacity;
      Admitted(b, Burst(b.last + wait, n)) == if n as real <= tokens then n else tokens.Floor
  {
    hide Generated;
    GeneratedIs(b.ratePerSec, wait);
    GeneratedNotNegative(b.ratePerSec, wait);
    UpdatedAfter(b, wait);
    var now := b.last + wait;
    var u := Updated(b, now);
    if n > 0 {
      assert Updated(u, now) == u;
      SameFirst(b, u, Burst(now, n));
      BurstTakes(u, n);
    }
  }

  // ---------------------------------------------------------------- when it does happen

  /** More calls succeed than capacity + rate * elapsed. */
  predicate Exceeds(b: Tokens, times: seq<real>)
    requires times != []
  {
    Admitted(b, times) as real > b.capacity + Generated(b.ratePerSec, times[|times| - 1] - times[0])
  }

  lemma ExceedsIs(b: Tokens, times: seq<real>, elapsed: real)
    requires Window(times, elapsed)
    ensures Exceeds(b, times) <==> Admitted(b, times) as real > b.capacity + b.ratePerSec * elapsed
  {
    hide Generated;
    GeneratedIs(b.ratePerSec, elapsed);
    assert times[|times| - 1] - times[0] == elapsed;
  }

  lemma GeneratedLess(rate: real, a: real, b: real)
    requires rate > 0.0 && a < b
    ensures Generated(rate, a) < Generated(rate, b)
  {
  }

  /** One stretch of calls after another. */
  lemma OneAfterAnother(a: seq<real>, b: seq<real>, start: real, middle: real, end: real)
    requires Ordered(a) && Within(a, start, middle) && Ordered(b) && Within(b, middle, end) && start <= middle <= end
    ensures Ordered(a + b) && Within(a + b, start, end)
  {
  }

  /** A burst takes its tokens, and other calls come after it. */
  lemma {:induction false} BurstThen(b: Tokens, n: nat, rest: seq<real>)
    requires Sound(b) && b.available >= n as real
    ensures Admitted(b, Burst(b.last, n) + rest) == n + Admitted(Burnt(b, n), rest)
    decreases n
  {
    hide Generated;
    if n == 0 {
      assert Burst(b.last, 0) + rest == rest && Burnt(b, 0) == b;
    } else {
      var times, one := Burst(b.last, n) + rest, Burnt(b, 1);
      assert times[0] == b.last && times[1..] == Burst(b.last, n - 1) + rest;
      assert Consumed(b, 1.0, b.last) == one && Burnt(one, n - 1) == Burnt(b, n);
      BurstThen(one, n - 1, rest);
    }
  }

  /** The time in which a rate generates some tokens. */
  lemma TimeFor(rate: real, tokens: real) returns (d: real)
    requires rate > 0.0 && tokens > 0.0
    ensures d > 0.0 && Generated(rate, d) == tokens
  {
    d := tokens / rate;
  }

  /** A time, in calls that are never further apart than the longest duration. */
  function Waiting(start: real, end: real, n: nat): seq<real>
    requires start <= end
    decreases n
  {
    if n == 0 || end - start <= MAX_DURATION then [end]
    else [start + MAX_DURATION] + Waiting(start + MAX_DURATION, end, n - 1)
  }

  lemma {:induction false} WaitingWithin(start: real, end: real, n: nat)
    requires start <= end
    ensures var times := Waiting(start, end, n);
      times != [] && Ordered(times) && Within(times, start, end) && times[|times| - 1] == end
    decreases n
  {
    if n == 0 || end - start <= MAX_DURATION {
    } else {
      WaitingWithin(start + MAX_DURATION, end, n - 1);
    }
  }

  /** Waiting until just one token is there admits one call. */
  lemma {:induction false} WaitAdmits(b: Tokens, end: real, n: nat)
    requires Sound(b) && b.available < 1.0 <= b.capacity && b.ratePerSec > 0.0 && b.last < end
    requires b.available + Generated(b.ratePerSec, end - b.last) == 1.0
    requires end - b.last <= MAX_DURATION * (n + 1) as real
    ensures Admitted(b, Waiting(b.last, end, n)) == 1
    decreases n
  {
    hide Generated;
    var times := Waiting(b.last, end, n);
    if n == 0 || end - b.last <= MAX_DURATION {
      assert times[1..] == [];
    } else {
      var next := b.last + MAX_DURATION;
      var b' := Consumed(b, 1.0, next);
      GeneratedLess(b.ratePerSec, MAX_DURATION, end - b.last);
      GeneratedNotNegative(b.ratePerSec, MAX_DURATION);
      GeneratedTogether(b.ratePerSec, b.last, next, end);
      assert b' == b.(last := next, available := b.available + Generated(b.ratePerSec, MAX_DURATION));
      assert times[0] == next && times[1..] == Waiting(next, end, n - 1);
      WaitAdmits(b', end, n - 1);
    }
  }

  /** A stale time that is worth a token lets all the tokens of a full bucket be taken at once, and
      one more. */
  lemma RichExceeds(b: Tokens, start: real) returns (times: seq<real>)
    requires Sound(b) && b.available == b.capacity >= 1.0 && b.last < start && b.ratePerSec > 0.0
    requires Generated(b.ratePerSec, Since(start, b.last)) >= 1.0
    ensures Ordered(times) && times != [] && times[0] == start && Exceeds(b, times)
  {
    hide Generated;
    var n, once, full := b.capacity.Floor, Burnt(b, 1), b.(last := start);
    var rest := Burst(start, n);
    assert Updated(once, start) == full == Updated(full, start);
    SameFirst(once, full, rest);
    BurstThen(full, n, []);
    assert rest + [] == rest;
    times := [start] + rest;
    assert times[1..] == rest && Consumed(b, 1.0, start) == once;
    assert Admitted(b, times) == 1 + n;
    GeneratedTogether(b.ratePerSec, 0.0, 0.0, 0.0);
  }

  lemma StepsFor(d: real) returns (n: nat)
    requires d >= 0.0
    ensures d <= MAX_DURATION * (n + 1) as real
  {
    n := (d / MAX_DURATION).Floor;
    assert d / MAX_DURATION <= (n + 1) as real;
    assert d == MAX_DURATION * (d / MAX_DURATION);
  }

  /** With less than a token left, the calls until there is one, of which only the last succeeds. */
  lemma WaitForOne(left: Tokens) returns (end: real, times: seq<real>)
    requires Sound(left) && left.available < 1.0 <= left.capacity && left.ratePerSec > 0.0
    ensures left.last < end && left.available + Generated(left.ratePerSec, end - left.last) == 1.0
    ensures Ordered(times) && Within(times, left.last, end) && times != [] && times[|times| - 1] == end
    ensures Admitted(left, times) == 1
  {
    hide Generated;
    var d := TimeFor(left.ratePerSec, 1.0 - left.available);
    var n := StepsFor(d);
    end := left.last + d;
    times := Waiting(left.last, end, n);
    WaitingWithin(left.last, end, n);
    WaitAdmits(left, end, n);
  }

  /** All the tokens of a bucket, and then one more as soon as there is one: as many as there are and
      are generated. */
  lemma TakeAndWait(u: Tokens) returns (end: real, times: seq<real>)
    requires Sound(u) && u.capacity >= 1.0 && u.ratePerSec > 0.0
    ensures u.last <= end && Ordered(times) && Within(times, u.last, end)
    ensures times != [] && times[0] == u.last && times[|times| - 1] == end
    ensures Admitted(u, times) as real == u.available + Generated(u.ratePerSec, end - u.last)
  {
    hide Generated;
    var n := u.available.Floor;
    var left := Burnt(u, n);
    var waiting;
    end, waiting := WaitForOne(left);
    var last := [u.last] + waiting;
    assert last[1..] == waiting && Consumed(left, 1.0, u.last) == left;
    assert Admitted(left, last) == 1;
    BurstThen(u, n, last);
    times := Burst(u.last, n) + last;
    hide Admitted;
    assert Ordered(last) && Within(last, u.last, end);
    OneAfterAnother(Burst(u.last, n), last, u.last, u.last, end);
  }

  /** One that is worth less is worth what it adds to the tokens left: what is then missing to one
      more token takes that much less time. */
  lemma PoorExceeds(b: Tokens, start: real) returns (times: seq<real>)
    requires Sound(b) && b.available == b.capacity >= 1.0 && b.last < start && b.ratePerSec > 0.0
    requires Generated(b.ratePerSec, Since(start, b.last)) < 1.0
    ensures Ordered(times) && times != [] && times[0] == start && Exceeds(b, times)
  {
    hide Generated;
    var gained, once := Generated(b.ratePerSec, Since(start, b.last)), Burnt(b, 1);
    GeneratedTogether(b.ratePerSec, 0.0, 0.0, 0.0);
    GeneratedLess(b.ratePerSec, 0.0, Since(start, b.last));
    var u := b.(last := start, available := b.capacity - 1.0 + gained);
    assert Updated(once, start) == u == Updated(u, start);
    var end, rest := TakeAndWait(u);
    SameFirst(once, u, rest);
    times := [start] + rest;
    assert times[1..] == rest && Consumed(b, 1.0, start) == once;
    assert Admitted(b, times) == 1 + Admitted(u, rest);
    OneAfterAnother([start], rest, start, start, end);
    assert times[|times| - 1] == end;
  }

  /** A full bucket whose last time is not stale, or whose rate is zero, keeps the bound. */
  lemma FreshKeepsLimit(b: Tokens, times: seq<real>)
    requires Sound(b) && b.available == b.capacity >= 1.0
    requires Ordered(times) && times != [] && b.last <= times[0] && Generated(b.ratePerSec, times[0] - b.last) <= 0.0
    ensures !Exceeds(b, times)
  {
    hide Generated;
    var start, end := times[0], times[|times| - 1];
    var b' := b.(available := b.available - 1.0);
    assert Within(times, start, end);
    TailWithin(times, start, end);
    assert Consumed(b, 1.0, start) == b' && Admitted(b, times) == 1 + Admitted(b', times[1..]);
    LimitedFrom(b', times[1..], start, end);
    GeneratedTogether(b.ratePerSec, b.last, start, end);
  }

  lemma NothingGenerated(rate: real, elapsed: real)
    requires rate == 0.0 || elapsed == 0.0
    ensures Generated(rate, elapsed) == 0.0
  {
  }

  /** So a full bucket for at least one token admits more than capacity + rate * elapsed calls, in
      some window that begins at a given time, exactly when its rate is not zero and its last time
      lies before the window. */
  lemma FullBucketExceedsIff(b: Tokens, start: real)
    requires Sound(b) && b.available == b.capacity >= 1.0 && b.last <= start
    ensures (exists times, elapsed | Window(times, elapsed) && times[0] == start ::
               Admitted(b, times) as real > b.capacity + b.ratePerSec * elapsed)
       <==> b.ratePerSec > 0.0 && b.last < start
  {
    hide Exceeds, Generated;
    if b.ratePerSec > 0.0 && b.last < start {
      var times: seq<real>;
      if Generated(b.ratePerSec, Since(start, b.last)) >= 1.0 {
        times := RichExceeds(b, start);
      } else {
        times := PoorExceeds(b, start);
      }
      var elapsed := times[|times| - 1] - start;
      ExceedsIs(b, times, elapsed);
      assert Window(times, elapsed);
    } else {
      NothingGenerated(b.ratePerSec, start - b.last);
      forall times, elapsed | Window(times, elapsed) && times[0] == start
        ensures Admitted(b, times) as real <= b.capacity + b.ratePerSec * elapsed
      {
        FreshKeepsLimit(b, times);
        ExceedsIs(b, times, elapsed);
      }
    }
  }
}
