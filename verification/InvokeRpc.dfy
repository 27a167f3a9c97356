/** The retry and redirect loop around a remote call. What other goroutines do to the shared
    connection between the turns of the loop is in SharedConnection; here each turn finds the
    connection active or not, as it may be. */
module InvokeRpc {
  import opened Common

  datatype ResultCode = OK | TRY_LATER | INVALID_API_KEY | LIMIT_EXCEEDED | REDIRECT | OTHER

  /** What the collector answers to a call. */
  datatype Reply = Answer(code: ResultCode, arg: string) | TimedOut | Failed

  /** What one turn of the loop meets: whether the reporter has closed and been flushed, whether
      the connection is active, and the reply if a call is made. */
  datatype Turn = Turn(exiting: bool, active: bool, reply: Reply)

  datatype RetryRule = Always | UnlessTooBig | Never

  datatype Method = Method(messageLen: nat, requestSize: nat, hasServiceKey: bool, retry: RetryRule)

  datatype CallError = ConnStale | RequestTooBig | CallFailed

  /** The result of a turn's call, if no error is raised: a method that has no service key is
      skipped, and its result code then is still the initial one, OK. */
  datatype Called = Error(err: CallError) | Result(code: ResultCode, arg: string)

  datatype Outcome =
    Success | ReporterExiting | InvalidServiceKey | TooManyRedirections | NoRetryOnErr | GiveUpAfterRetries

  const REDIRECT_MAX := 20

  const MAX_RETRIES := 20

  function Call(m: Method, maxReqBytes: int, t: Turn): Called {
    if !t.active then Error(ConnStale)
    else if m.requestSize > maxReqBytes then Error(RequestTooBig)
    else if !m.hasServiceKey then Result(OK, "")
    else match t.reply
      case Answer(code, arg) => Result(code, arg)
      case TimedOut => Error(ConnStale)
      case Failed => Error(CallFailed)
  }

  predicate RetryOnErr(m: Method, c: Called) {
    match m.retry
    case Always => true
    case UnlessTooBig => c != Error(RequestTooBig)
    case Never => false
  }

  predicate Redirects(c: Called) {
    c.Result? && c.code == REDIRECT
  }

  predicate Moves(c: Called) {
    Redirects(c) && c.arg != ""
  }

  predicate Answers(c: Called, code: ResultCode) {
    c.Result? && c.code == code
  }

  /** The turns of an invocation, as they would come for ever. */
  type Turns = nat -> Turn

  /** What is asked, on a connection with that request size limit. */
  datatype Request = Request(m: Method, maxReqBytes: int, turns: Turns)

  function At(q: Request, i: nat): Called {
    Call(q.m, q.maxReqBytes, q.turns(i))
  }

  /** How many of the first n turns were answered with a redirect. */
  function RedirectsBy(q: Request, n: nat): nat {
    if n == 0 then 0 else RedirectsBy(q, n - 1) + (if Redirects(At(q, n - 1)) then 1 else 0)
  }

  /** How many turns there were since the last redirect to an address, that one included. */
  function TurnsSinceMove(q: Request, n: nat): nat {
    if n == 0 then 0 else if Moves(At(q, n - 1)) then 1 else TurnsSinceMove(q, n - 1) + 1
  }

  predicate FailsMessages(c: Called) {
    Answers(c, TRY_LATER) || Answers(c, LIMIT_EXCEEDED)
  }

  /** Messages counted as failed in the first n turns. */
  function FailedBy(q: Request, n: nat): nat {
    if n == 0 then 0 else FailedBy(q, n - 1) + (if FailsMessages(At(q, n - 1)) then q.m.messageLen else 0)
  }

  /** The address after the first n turns. */
  function AddressBy(q: Request, n: nat, address: string): string {
    if n == 0 then address
    else if Moves(At(q, n - 1)) then At(q, n - 1).arg
    else AddressBy(q, n - 1, address)
  }

  /** Why turn i is the last, if it is: a closed reporter, an answer that ends it, one redirect
      too many, a method that is not retried, or one turn too many since the last move. */
  function Ending(q: Request, i: nat): (o: Option<Outcome>) {
    var c := At(q, i);
    if q.turns(i).exiting then Some(ReporterExiting)
    else if Answers(c, OK) then Some(Success)
    else if Answers(c, INVALID_API_KEY) then Some(InvalidServiceKey)
    else if Redirects(c) && RedirectsBy(q, i) >= REDIRECT_MAX then Some(TooManyRedirections)
    else if !RetryOnErr(q.m, c) then Some(NoRetryOnErr)
    else if !Moves(c) && TurnsSinceMove(q, i) >= MAX_RETRIES then Some(GiveUpAfterRetries)
    else None
  }

  /** Turn i is reached. */
  ghost predicate Reaches(q: Request, i: nat) {
    forall j: nat | j < i :: Ending(q, j) == None
  }

  lemma NoTurns(q: Request, address: string)
    ensures RedirectsBy(q, 0) == TurnsSinceMove(q, 0) == FailedBy(q, 0) == 0 && AddressBy(q, 0, address) == address
    ensures Reaches(q, 0)
  {
  }

  /** What one more turn adds. */
  lemma TurnTaken(q: Request, n: nat, address: string)
    ensures var c := At(q, n);
      && RedirectsBy(q, n + 1) == RedirectsBy(q, n) + (if Redirects(c) then 1 else 0)
      && TurnsSinceMove(q, n + 1) == (if Moves(c) then 1 else TurnsSinceMove(q, n) + 1)
      && FailedBy(q, n + 1) == FailedBy(q, n) + (if FailsMessages(c) then q.m.messageLen else 0)
      && AddressBy(q, n + 1, address) == (if Moves(c) then c.arg else AddressBy(q, n, address))
    ensures Reaches(q, n + 1) <==> Reaches(q, n) && Ending(q, n) == None
  {
    hide At, Ending;
  }

  class Connection {
    const maxReqBytes: int
    var address: string
    var numSent: nat
    var numFailed: nat
    var queueLargest: int

    constructor (maxReqBytes: int, address: string)
      ensures this.maxReqBytes == maxReqBytes && this.address == address
      ensures numSent == numFailed == queueLargest == 0
    {
      this.maxReqBytes, this.address := maxReqBytes, address;
      numSent, numFailed, queueLargest := 0, 0, 0;
    }

    method SetQueueLargest(count: int)
      modifies this`queueLargest
      ensures queueLargest >= count && queueLargest >= old(queueLargest) && queueLargest in {count, old(queueLargest)}
    {
      if count > queueLargest {
        queueLargest := count;
      }
    }

    /** The default backoff gives up above the maximum of retries. */
    method Backoff(retries: nat) returns (giveUp: bool)
      ensures giveUp <==> retries > MAX_RETRIES
    {
      giveUp := retries > MAX_RETRIES;
    }

    /** Invokes a method. It takes the turns up to the first that ends it; what is counted as
        sent are the messages of an invocation that succeeds, once. */
    method InvokeRPC(m: Method, turns: Turns) returns (outcome: Outcome, n: nat)
      modifies this
      ensures var q := Request(m, maxReqBytes, turns);
        && queueLargest == (if m.messageLen > old(queueLargest) then m.messageLen else old(queueLargest))
        && n > 0 && Reaches(q, n - 1) && Ending(q, n - 1) == Some(outcome)
        && numSent == old(numSent) + (if outcome == Success then m.messageLen else 0)
        && numFailed == old(numFailed) + (if outcome == ReporterExiting then FailedBy(q, n - 1) else FailedBy(q, n))
        && address == AddressBy(q, if outcome in {ReporterExiting, TooManyRedirections} then n - 1 else n, old(address))
    {
      hide RedirectsBy, TurnsSinceMove, FailedBy, AddressBy, Reaches;
      SetQueueLargest(m.messageLen);
      ghost var q := Request(m, maxReqBytes, turns);
      var redirects, retriesNum := 0, 0;
      n := 0;
      NoTurns(q, old(address));
      while true
        invariant redirects == RedirectsBy(q, n) <= REDIRECT_MAX
        invariant retriesNum == TurnsSinceMove(q, n) <= MAX_RETRIES
        invariant Reaches(q, n)
        invariant numSent == old(numSent) && numFailed == old(numFailed) + FailedBy(q, n)
        invariant address == AddressBy(q, n, old(address))
        invariant queueLargest == if m.messageLen > old(queueLargest) then m.messageLen else old(queueLargest)
        decreases REDIRECT_MAX - redirects, MAX_RETRIES - retriesNum
      {
        TurnTaken(q, n, old(address));
        var t := turns(n);
        n := n + 1;
        if t.exiting {
          return ReporterExiting, n;
        }
        var c := Call(m, maxReqBytes, t);
        if c.Result? {
          match c.code {
            case OK =>
              numSent := numSent + m.messageLen;
              return Success, n;
            case TRY_LATER =>
              numFailed := numFailed + m.messageLen;
            case LIMIT_EXCEEDED =>
              numFailed := numFailed + m.messageLen;
            case INVALID_API_KEY =>
              return InvalidServiceKey, n;
            case REDIRECT =>
              redirects := redirects + 1;
              if redirects > REDIRECT_MAX {
                return TooManyRedirections, n;
              } else if c.arg != "" {
                address := c.arg;
                retriesNum := 0;
              }
            case OTHER =>
          }
        }
        if !RetryOnErr(m, c) {
          return NoRetryOnErr, n;
        }
        retriesNum := retriesNum + 1;
        var giveUp := Backoff(retriesNum);
        if giveUp {
          return GiveUpAfterRetries, n;
        }
      }
    }
  }

  // ---------------------------------------------------------------- how long, and when it succeeds

  lemma {:induction false} TurnsCounted(q: Request, n: nat)
    requires Reaches(q, n)
    ensures n <= MAX_RETRIES * RedirectsBy(q, n) + TurnsSinceMove(q, n)
    ensures RedirectsBy(q, n) <= REDIRECT_MAX && TurnsSinceMove(q, n) <= MAX_RETRIES
  {
    if n == 0 {
    } else {
      TurnsCounted(q, n - 1);
      assert Ending(q, n - 1) == None;
    }
  }

  /** Whatever is answered, an invocation ends within 421 turns, although each redirect to an
      address starts the count of retries again. */
  lemma AtMost421Turns(q: Request, n: nat)
    requires n > 0 && Reaches(q, n - 1)
    ensures n <= 421
  {
    TurnsCounted(q, n - 1);
  }

  /** It is ended by some turn. */
  lemma Terminates(q: Request) returns (n: nat)
    ensures 0 < n <= 421 && Reaches(q, n - 1) && Ending(q, n - 1) != None
  {
    n := 1;
    while Ending(q, n - 1) == None
      invariant n > 0 && Reaches(q, n - 1)
      decreases 421 - n
    {
      AtMost421Turns(q, n + 1);
      n := n + 1;
    }
    AtMost421Turns(q, n);
  }

  /** The worst case: told to try later until only one more turn is left, and then moved. */
  function WorstTurn(i: nat): Turn {
    Turn(false, true, if i > 0 && i % 20 == 0 then Answer(REDIRECT, "host") else Answer(TRY_LATER, ""))
  }

  lemma {:induction false} WorstCounts(q: Request, n: nat)
    requires q == Request(Method(1, 1, true, Always), 1, WorstTurn)
    ensures RedirectsBy(q, n) == if n == 0 then 0 else (n - 1) / 20
    ensures TurnsSinceMove(q, n) == if n <= 20 then n else (n - 1) % 20 + 1
  {
    if n == 0 {
    } else {
      WorstCounts(q, n - 1);
      assert At(q, n - 1) == Call(q.m, 1, WorstTurn(n - 1));
    }
  }

  lemma BoundIsReached()
    ensures var q := Request(Method(1, 1, true, Always), 1, WorstTurn);
      Reaches(q, 420) && Ending(q, 420) == Some(TooManyRedirections)
  {
    var q := Request(Method(1, 1, true, Always), 1, WorstTurn);
    forall i: nat | i <= 420 ensures Ending(q, i) == if i < 420 then None else Some(TooManyRedirections) {
      WorstCounts(q, i);
      assert At(q, i) == Call(q.m, 1, WorstTurn(i));
    }
  }

  /** An invocation succeeds just when its last turn finds the reporter open, the connection active
      and the request small enough, and the collector answers OK, or is not asked because the method
      has no service key; no turn before it was answered so. */
  lemma SucceedsIff(q: Request, n: nat)
    requires n > 0 && Reaches(q, n - 1)
    ensures var t := q.turns(n - 1);
      Ending(q, n - 1) == Some(Success) <==>
        && !t.exiting && t.active && q.m.requestSize <= q.maxReqBytes
        && (q.m.hasServiceKey ==> t.reply.Answer? && t.reply.code == OK)
    ensures forall i: nat | i < n - 1 :: !Answers(At(q, i), OK)
  {
    forall i: nat | i < n - 1 ensures !Answers(At(q, i), OK) { assert Ending(q, i) == None; }
  }

  /** So messages without a service key are counted as sent although no call was made. */
  lemma SkippedCountsAsSent(q: Request)
    requires !q.m.hasServiceKey && q.turns(0).active && !q.turns(0).exiting && q.m.requestSize <= q.maxReqBytes
    ensures Reaches(q, 0) && Ending(q, 0) == Some(Success)
  {
  }

  /** A request that is too big is never sent, and fails at the first turn that finds the
      connection active, if the method minds. */
  lemma TooBigIsNeverSent(q: Request, n: nat)
    requires q.m.requestSize > q.maxReqBytes && n > 0 && Reaches(q, n - 1)
    ensures Ending(q, n - 1) != Some(Success)
    ensures q.m.retry == UnlessTooBig ==> forall i: nat | i < n - 1 :: !q.turns(i).active
  {
    if q.m.retry == UnlessTooBig {
      forall i: nat | i < n - 1 ensures !q.turns(i).active { assert Ending(q, i) == None; }
    }
  }

  /** A method that is never retried takes one turn, whatever it meets. */
  lemma NeverRetriedOnce(q: Request)
    requires q.m.retry == Never
    ensures Ending(q, 0) != None
  {
  }

  // ---------------------------------------------------------------- how it ends, told by the replies

  /** The collector is asked in turn i, and gives that answer. */
  ghost predicate Answered(q: Request, i: nat, code: ResultCode) {
    var t := q.turns(i);
    && t.active && q.m.requestSize <= q.maxReqBytes && q.m.hasServiceKey
    && t.reply.Answer? && t.reply.code == code
  }

  ghost predicate MovedTo(q: Request, i: nat, address: string) {
    Answered(q, i, REDIRECT) && q.turns(i).reply.arg == address != ""
  }

  ghost predicate MovedAt(q: Request, i: nat) {
    Answered(q, i, REDIRECT) && q.turns(i).reply.arg != ""
  }

  /** The turns before turn n with one of these answers. */
  ghost function TurnsWith(q: Request, n: nat, codes: set<ResultCode>): set<nat> {
    set i: nat | i < n && q.turns(i).reply.Answer? && Answered(q, i, q.turns(i).reply.code)
                 && q.turns(i).reply.code in codes
  }

  /** No move in the n turns up to turn i, that one included. */
  ghost predicate NoMoveFor(q: Request, n: nat, i: nat) {
    n <= i && forall j: nat | i - n < j <= i :: !MovedAt(q, j)
  }

  lemma AnsweredAt(q: Request, i: nat)
    ensures forall code :: Answers(At(q, i), code) <==>
      Answered(q, i, code)
      || (code == OK && q.turns(i).active && q.m.requestSize <= q.maxReqBytes && !q.m.hasServiceKey)
    ensures Redirects(At(q, i)) <==> Answered(q, i, REDIRECT)
    ensures Moves(At(q, i)) <==> MovedAt(q, i)
    ensures Moves(At(q, i)) ==> At(q, i).arg == q.turns(i).reply.arg
  {
  }

  lemma OneTurnMore(q: Request, n: nat, codes: set<ResultCode>)
    ensures |TurnsWith(q, n + 1, codes)| ==
      |TurnsWith(q, n, codes)| + (if exists code | code in codes :: Answered(q, n, code) then 1 else 0)
  {
    if exists code | code in codes :: Answered(q, n, code) {
      assert TurnsWith(q, n + 1, codes) == TurnsWith(q, n, codes) + {n};
    } else {
      assert TurnsWith(q, n + 1, codes) == TurnsWith(q, n, codes);
    }
  }

  /** A redirect counts as one, and the messages as failed, once for each turn answered so. */
  lemma {:induction false} TurnsWithCounted(q: Request, n: nat)
    ensures RedirectsBy(q, n) == |TurnsWith(q, n, {REDIRECT})|
    ensures FailedBy(q, n) == |TurnsWith(q, n, {TRY_LATER, LIMIT_EXCEEDED})| * q.m.messageLen
  {
    hide At, Answered;
    if n == 0 {
      assert TurnsWith(q, 0, {REDIRECT}) == {} && TurnsWith(q, 0, {TRY_LATER, LIMIT_EXCEEDED}) == {};
    } else {
      TurnsWithCounted(q, n - 1);
      AnsweredAt(q, n - 1);
      OneTurnMore(q, n - 1, {REDIRECT});
      OneTurnMore(q, n - 1, {TRY_LATER, LIMIT_EXCEEDED});
    }
  }

  lemma {:induction false} SinceMoveIs(q: Request, n: nat)
    ensures TurnsSinceMove(q, n) <= n
    ensures forall j: nat | n - TurnsSinceMove(q, n) < j < n :: !MovedAt(q, j)
    ensures TurnsSinceMove(q, n) < n ==> MovedAt(q, n - TurnsSinceMove(q, n))
    ensures TurnsSinceMove(q, n) == n > 0 ==> forall j: nat | 0 < j < n :: !MovedAt(q, j)
  {
    hide At, MovedAt;
    if n == 0 {
    } else {
      SinceMoveIs(q, n - 1);
      AnsweredAt(q, n - 1);
    }
  }

  /** Each outcome, told by the turns before it. Redirects to no address are counted as redirects,
      but do not start the count of retries again. */
  ghost predicate EndsWith(q: Request, i: nat, outcome: Outcome) {
    var t := q.turns(i);
    var skipped := t.active && q.m.requestSize <= q.maxReqBytes && !q.m.hasServiceKey;
    var tooBig := t.active && q.m.requestSize > q.maxReqBytes;
    var answersEnd := Answered(q, i, OK) || skipped || Answered(q, i, INVALID_API_KEY);
    var oneTooMany := Answered(q, i, REDIRECT) && |TurnsWith(q, i, {REDIRECT})| == 20;
    var notRetried := q.m.retry == Never || (q.m.retry == UnlessTooBig && tooBig);
    match outcome
    case ReporterExiting => t.exiting
    case Success => !t.exiting && (Answered(q, i, OK) || skipped)
    case InvalidServiceKey => !t.exiting && Answered(q, i, INVALID_API_KEY)
    case TooManyRedirections => !t.exiting && oneTooMany
    case NoRetryOnErr => !t.exiting && !answersEnd && !oneTooMany && notRetried
    case GiveUpAfterRetries =>
      !t.exiting && !answersEnd && !oneTooMany && !notRetried && NoMoveFor(q, 20, i)
  }

  lemma GivesUpIff(q: Request, i: nat)
    requires Reaches(q, i)
    ensures !Moves(At(q, i)) && TurnsSinceMove(q, i) >= MAX_RETRIES <==> NoMoveFor(q, 20, i)
  {
    hide At, MovedAt;
    TurnsCounted(q, i);
    SinceMoveIs(q, i);
    AnsweredAt(q, i);
  }

  /** A turn that is reached ends the invocation just as its reply and those before it say. */
  lemma EndsAsAnswered(q: Request, i: nat, outcome: Outcome)
    requires Reaches(q, i)
    ensures Ending(q, i) == Some(outcome) <==> EndsWith(q, i, outcome)
  {
    hide RedirectsBy, TurnsSinceMove, Reaches, TurnsWith, NoMoveFor;
    TurnsCounted(q, i);
    TurnsWithCounted(q, i);
    AnsweredAt(q, i);
    GivesUpIff(q, i);
  }

  /** After a redirect to an address, that address is in force until the next such redirect; before
      the first one, it is the one the connection had. */
  lemma {:induction false} LastMoveIsInForce(q: Request, n: nat, address: string)
    ensures forall i: nat, moved | i < n && MovedTo(q, i, moved) && (forall j: nat | i < j < n :: !MovedAt(q, j)) ::
      AddressBy(q, n, address) == moved
    ensures (forall j: nat | j < n :: !MovedAt(q, j)) ==> AddressBy(q, n, address) == address
  {
    hide At, Answered;
    if n == 0 {
    } else {
      LastMoveIsInForce(q, n - 1, address);
      AnsweredAt(q, n - 1);
      forall i: nat, moved | i < n && MovedTo(q, i, moved) && (forall j: nat | i < j < n :: !MovedAt(q, j))
        ensures AddressBy(q, n, address) == moved
      {
        assert i < n - 1 ==> !MovedAt(q, n - 1);
      }
    }
  }
}
