/** The goroutine that batches events for as long as the reporter runs, and what is lost when
    the reporter is shut down. */
module EventSender {
  import opened Common
  import opened BytesBucket

  /** One turn: pour, and drain if the bucket is full. */
  function Turn(r: Run, signals: seq<Signal>): Run {
    var poured := Step(r, PourIn(signals));
    if poured.bucket.full then Step(poured, Drain) else poured
  }

  predicate EndsClosing(signals: seq<Signal>, n: nat)
    requires n <= |signals|
  {
    n > 0 && signals[n - 1] == Closing
  }

  /** Pouring ends with a bucket that is full, and then has something to drain, or on closing,
      which leaves a bucket full just when it is graceful and has bytes. A message that waits
      then is one that did not fit. */
  predicate PouredEnds(b: State, graceful: bool, done: bool, closing: bool) {
    && b.graceful == graceful
    && (done <==> b.full || closing)
    && (b.full ==> b.water != [])
    && (closing ==> b.waitingList == [] && (b.full <==> graceful && b.watermark != 0))
    && (b.waitingList != [] ==> b.watermark + |b.waitingList[0]| > b.hwm)
  }

  lemma NextEnds(p: Pouring, signal: Signal)
    requires SoundPouring(p) && !p.done
    ensures var p' := Next(p, signal); PouredEnds(p'.bucket, p.bucket.graceful, p'.done, signal == Closing)
  {
    if p.bucket.water == [] { assert p.bucket.watermark == 0; }
  }

  lemma {:induction false} PourEnds(p: Pouring, signals: seq<Signal>)
    requires SoundPouring(p) && !p.done
    ensures var p' := Poured(p, signals);
      PouredEnds(p'.bucket, p.bucket.graceful, p'.done, EndsClosing(signals, Received(p, signals)))
    decreases |signals|
  {
    if signals == [] {
    } else {
      var q := Next(p, signals[0]);
      NextKeeps(p, signals[0]);
      NextEnds(p, signals[0]);
      if q.done {
        assert Poured(q, signals[1..]) == q && Received(p, signals) == 1;
      } else {
        PourEnds(q, signals[1..]);
      }
    }
  }

  /** After pouring a message waits just when there is more than the bucket can hold. */
  lemma NothingWaitsIff(b: State, signals: seq<Signal>)
    requires Sound(b) && !b.full
    ensures var b' := AfterPourIn(b, signals); b'.waitingList == [] <==> Bytes(Held(b')) <= b'.hwm
  {
    var b' := AfterPourIn(b, signals);
    MovedKeeps(b);
    PourEnds(Start(b), signals);
    AfterPourInKeeps(b, signals);
    if b'.waitingList == [] {
      assert Held(b') == b'.water;
    } else {
      BytesAppend(b'.water, b'.waitingList[0]);
      assert Held(b') == b'.water + [b'.waitingList[0]];
    }
  }

  /** What the bucket would hold if it were bottomless: what it held, and what was received. */
  function Content(b: State, signals: seq<Signal>): seq<Message> {
    Held(b) + Fitting(b.hwm, signals[..ReceivedByPourIn(b, signals)])
  }

  /** What a turn leaves of that: on closing all of it, unless the bucket is graceful and has
      bytes; otherwise the last message, if it was one too many. */
  function Left(hwm: nat, graceful: bool, content: seq<Message>, closing: bool): seq<Message> {
    if closing then if graceful && Bytes(content) != 0 then [] else content
    else if Bytes(content) > hwm && content != [] then [content[|content| - 1]]
    else []
  }

  lemma HeldAfterPourIn(b: State, content: seq<Message>, done: bool, closing: bool)
    requires Sound(b) && PouredEnds(b, b.graceful, done, closing) && done && content == Held(b)
    ensures Left(b.hwm, b.graceful, content, closing) == if b.full then b.waitingList else Held(b)
  {
    if b.waitingList == [] {
      assert Held(b) == b.water;
    } else {
      BytesAppend(b.water, b.waitingList[0]);
      assert Held(b) == b.water + [b.waitingList[0]];
    }
  }

  /** What a turn leaves in the bucket, exactly. */
  lemma TurnLeaves(r: Run, signals: seq<Signal>)
    requires Faithful(r) && !r.bucket.full && Poured(Start(r.bucket), signals).done
    ensures var r' := Turn(r, signals);
      && Faithful(r') && !r'.bucket.full && r'.bucket.hwm == r.bucket.hwm && r'.bucket.graceful == r.bucket.graceful
      && Held(r'.bucket) == Left(r.bucket.hwm, r.bucket.graceful, Content(r.bucket, signals),
                                 EndsClosing(signals, ReceivedByPourIn(r.bucket, signals)))
      && Bytes(Held(r'.bucket)) <= r.bucket.hwm
  {
    hide Poured, Received, Fitting, Joined, Next, Moved;
    var b', closing := AfterPourIn(r.bucket, signals), EndsClosing(signals, ReceivedByPourIn(r.bucket, signals));
    MovedKeeps(r.bucket);
    PourEnds(Start(r.bucket), signals);
    AfterPourInKeeps(r.bucket, signals);
    StepKeeps(r, PourIn(signals));
    StepKeeps(Step(r, PourIn(signals)), Drain);
    HeldAfterPourIn(b', Content(r.bucket, signals), true, closing);
    assert [] + b'.waitingList == b'.waitingList && b'.water + [] == b'.water;
    if b'.waitingList != [] {
      assert b'.waitingList == [] + [b'.waitingList[0]];
      BytesAppend([], b'.waitingList[0]);
    }
  }

  // ---------------------------------------------------------------- the reporter

  datatype Sender = NotStarted | Running(run: Run) | Returned(run: Run)

  /** gracefully is the flag of the reporter, which a shutdown sets before it closes done. queue
      holds the messages accepted that the sender has not received. */
  datatype Reporter = Reporter(hwm: nat, gracefully: bool, shuttingDown: bool, done: bool, queue: seq<Message>,
                               accepted: seq<Message>, sender: Sender)

  const QUEUE_SIZE := 10000

  /** A turn can take long, so more can be accepted during it. */
  datatype Event =
    | Accept(m: Message)
    | BeginShutdown(gracefully: bool)
    | CloseDone
    | StartSender
    | TakeTurn(signals: seq<Signal>, meanwhile: seq<Message>)

  function NewReporter(hwm: nat): Reporter {
    Reporter(hwm, false, false, false, [], [], NotStarted)
  }

  /** The messages of signals. */
  function Arrivals(signals: seq<Signal>): seq<Message> {
    if signals == [] then []
    else
      var rest := Arrivals(signals[1..]);
      if signals[0].Arrival? then [signals[0].message] + rest else rest
  }

  /** The messages of at most the high watermark. */
  function NotTooBig(hwm: nat, messages: seq<Message>): seq<Message> {
    if messages == [] then []
    else
      var rest := NotTooBig(hwm, messages[1..]);
      if |messages[0]| <= hwm then [messages[0]] + rest else rest
  }

  /** What a turn receives. */
  function TurnReceives(run: Run, signals: seq<Signal>): seq<Signal> {
    signals[..ReceivedByPourIn(run.bucket, signals)]
  }

  predicate Enabled(r: Reporter, e: Event) {
    match e
    case Accept(_) => |r.queue| < QUEUE_SIZE
    case BeginShutdown(_) => !r.shuttingDown
    case CloseDone => r.shuttingDown && !r.done
    case StartSender => r.sender.NotStarted?
    case TakeTurn(signals, meanwhile) =>
      && r.sender.Running? && !r.sender.run.bucket.full && Poured(Start(r.sender.run.bucket), signals).done
      && (EndsClosing(signals, ReceivedByPourIn(r.sender.run.bucket, signals)) ==> r.done)
      && Arrivals(TurnReceives(r.sender.run, signals)) <= r.queue + meanwhile
  }

  /** The sender builds its bucket with the flag as it is then, and returns after the turn in
      which it finds done closed. */
  function After(r: Reporter, e: Event): Reporter
    requires Enabled(r, e)
  {
    match e
    case Accept(m) => r.(queue := r.queue + [m], accepted := r.accepted + [m])
    case BeginShutdown(gracefully) => r.(gracefully := gracefully, shuttingDown := true)
    case CloseDone => r.(done := true)
    case StartSender => r.(sender := Running(Run(Empty(r.hwm, r.gracefully), [], [])))
    case TakeTurn(signals, meanwhile) =>
      var run := Turn(r.sender.run, signals);
      var received := |Arrivals(TurnReceives(r.sender.run, signals))|;
      r.(sender := if r.done then Returned(run) else Running(run),
         queue := (r.queue + meanwhile)[received..],
         accepted := r.accepted + meanwhile)
  }

  ghost predicate Leads(r: Reporter, events: seq<Event>, r': Reporter)
    decreases |events|
  {
    if events == [] then r' == r else Enabled(r, events[0]) && Leads(After(r, events[0]), events[1..], r')
  }

  function ReceivedBy(sender: Sender): seq<Signal> {
    if sender.NotStarted? then [] else sender.run.received
  }

  /** What was accepted has been received or is in the queue; a flag is only set by a shutdown. */
  ghost predicate Inv(r: Reporter) {
    && (!r.sender.NotStarted? ==>
          var run := r.sender.run; Faithful(run) && !run.bucket.full && run.bucket.hwm == r.hwm)
    && (!r.shuttingDown ==> !r.gracefully)
    && Arrivals(ReceivedBy(r.sender)) + r.queue == r.accepted
  }

  lemma NewBucketIsFaithful(hwm: nat, graceful: bool)
    ensures Faithful(Run(Empty(hwm, graceful), [], []))
  {
    RunKeeps(Run(Empty(hwm, graceful), [], []), []);
  }

  lemma {:induction false} ArrivalsAppend(a: seq<Signal>, b: seq<Signal>)
    ensures Arrivals(a + b) == Arrivals(a) + Arrivals(b)
  {
    if a == [] {
      assert a + b == b;
    } else {
      ArrivalsAppend(a[1..], b);
      assert (a + b)[1..] == a[1..] + b;
      if a[0].Arrival? { Regroup([a[0].message], Arrivals(a[1..]), Arrivals(b)); }
    }
  }

  lemma {:induction false} FittingIs(hwm: nat, signals: seq<Signal>)
    ensures Fitting(hwm, signals) == NotTooBig(hwm, Arrivals(signals))
  {
    if signals == [] {
    } else {
      FittingIs(hwm, signals[1..]);
      if signals[0].Arrival? {
        var rest := Arrivals(signals[1..]);
        assert ([signals[0].message] + rest)[1..] == rest;
      }
    }
  }

  lemma {:induction false} NotTooBigAppend(hwm: nat, a: seq<Message>, b: seq<Message>)
    ensures NotTooBig(hwm, a + b) == NotTooBig(hwm, a) + NotTooBig(hwm, b)
  {
    if a == [] {
      assert a + b == b;
    } else {
      NotTooBigAppend(hwm, a[1..], b);
      assert (a + b)[1..] == a[1..] + b;
      Regroup([a[0]], NotTooBig(hwm, a[1..]), NotTooBig(hwm, b));
    }
  }

  /** What a turn receives it takes from the front of the queue. */
  lemma TurnTakesFromQueue(r: Reporter, signals: seq<Signal>, meanwhile: seq<Message>)
    requires Inv(r) && Enabled(r, TakeTurn(signals, meanwhile))
    ensures var r' := After(r, TakeTurn(signals, meanwhile));
      Arrivals(r'.sender.run.received) + r'.queue == r'.accepted
  {
    hide Faithful, Poured, Received, ReceivedByPourIn, AfterPourIn, Arrivals;
    var got, all := TurnReceives(r.sender.run, signals), r.queue + meanwhile;
    var r' := After(r, TakeTurn(signals, meanwhile));
    ArrivalsAppend(r.sender.run.received, got);
    assert r'.sender.run.received == r.sender.run.received + got;
    var n := |Arrivals(got)|;
    assert all == Arrivals(got) + all[n..];
    Regroup(Arrivals(r.sender.run.received), Arrivals(got), all[n..]);
    Regroup(Arrivals(r.sender.run.received), r.queue, meanwhile);
  }

  lemma StepKeepsReporter(r: Reporter, e: Event)
    requires Inv(r) && Enabled(r, e)
    ensures Inv(After(r, e))
    ensures !r.sender.NotStarted? ==>
      !After(r, e).sender.NotStarted? && After(r, e).sender.run.bucket.graceful == r.sender.run.bucket.graceful
  {
    hide Faithful, Poured, Arrivals;
    match e {
      case Accept(m) => Regroup(Arrivals(ReceivedBy(r.sender)), r.queue, [m]);
      case BeginShutdown(_) =>
      case CloseDone =>
      case StartSender => NewBucketIsFaithful(r.hwm, r.gracefully);
      case TakeTurn(signals, meanwhile) =>
        TurnLeaves(r.sender.run, signals);
        TurnTakesFromQueue(r, signals, meanwhile);
    }
  }

  lemma {:induction false} RunKeepsReporter(r: Reporter, events: seq<Event>, r': Reporter)
    requires Inv(r) && Leads(r, events, r')
    ensures Inv(r')
    ensures !r.sender.NotStarted? ==>
      !r'.sender.NotStarted? && r'.sender.run.bucket.graceful == r.sender.run.bucket.graceful
    decreases |events|
  {
    if events == [] {
    } else {
      StepKeepsReporter(r, events[0]);
      RunKeepsReporter(After(r, events[0]), events[1..], r');
    }
  }

  /** The flag is set just when a graceful shutdown has begun, and the sender returns only when done
      is closed. */
  ghost predicate FlagOf(r: Reporter, events: seq<Event>) {
    && (r.gracefully <==> BeginShutdown(true) in events)
    && (r.shuttingDown <==> BeginShutdown(true) in events || BeginShutdown(false) in events)
    && (r.done <==> CloseDone in events) && (r.done ==> r.shuttingDown)
    && (r.sender.Returned? ==> r.done)
  }

  lemma FlagStep(r: Reporter, before: seq<Event>, e: Event)
    requires FlagOf(r, before) && Enabled(r, e)
    ensures FlagOf(After(r, e), before + [e])
  {
    hide Turn, Poured, Arrivals, ReceivedByPourIn;
  }

  lemma {:induction false} FlagRuns(r: Reporter, before: seq<Event>, events: seq<Event>, r': Reporter)
    requires FlagOf(r, before) && Leads(r, events, r')
    ensures FlagOf(r', before + events)
    decreases |events|
  {
    hide FlagOf, After, Enabled;
    if events == [] {
      assert before + [] == before;
    } else {
      FlagStep(r, before, events[0]);
      FlagRuns(After(r, events[0]), before + [events[0]], events[1..], r');
      assert before + [events[0]] + events[1..] == before + events;
    }
  }

  /** What a shutdown sets is what it was asked for, whatever else goes on. */
  lemma FlagIsOfTheShutdown(hwm: nat, events: seq<Event>, r: Reporter)
    requires Leads(NewReporter(hwm), events, r)
    ensures FlagOf(r, events)
  {
    FlagRuns(NewReporter(hwm), [], events, r);
    assert [] + events == events;
  }

  lemma NewReporterInv(hwm: nat)
    ensures Inv(NewReporter(hwm))
  {
  }

  /** A sender that started before the shutdown began, as the one of a new reporter does, never
      runs a graceful bucket, however the reporter is shut down later. */
  lemma StartedBeforeShutdown(hwm: nat, earlier: seq<Event>, r: Reporter, later: seq<Event>, r': Reporter)
    requires Leads(NewReporter(hwm), earlier, r) && !r.shuttingDown && Enabled(r, StartSender)
    requires Leads(After(r, StartSender), later, r')
    ensures !r'.sender.NotStarted? && !r'.sender.run.bucket.graceful
  {
    NewReporterInv(hwm);
    RunKeepsReporter(NewReporter(hwm), earlier, r);
    StepKeepsReporter(r, StartSender);
    RunKeepsReporter(After(r, StartSender), later, r');
  }

  /** A sender runs a graceful bucket just when a graceful shutdown began before it started. */
  lemma GracefulIff(hwm: nat, earlier: seq<Event>, r: Reporter, later: seq<Event>, r': Reporter)
    requires Leads(NewReporter(hwm), earlier, r) && Enabled(r, StartSender)
    requires Leads(After(r, StartSender), later, r')
    ensures !r'.sender.NotStarted?
    ensures r'.sender.run.bucket.graceful <==> BeginShutdown(true) in earlier
  {
    NewReporterInv(hwm);
    FlagIsOfTheShutdown(hwm, earlier, r);
    RunKeepsReporter(NewReporter(hwm), earlier, r);
    StepKeepsReporter(r, StartSender);
    RunKeepsReporter(After(r, StartSender), later, r');
  }

  /** The turns in a run. */
  function Turns(events: seq<Event>): nat {
    if events == [] then 0 else (if events[0].TakeTurn? then 1 else 0) + Turns(events[1..])
  }

  /** Once done is closed, the sender takes at most one more turn, and returns after it. */
  lemma {:induction false} OneTurnAfterDone(r: Reporter, events: seq<Event>, r': Reporter)
    requires r.done && Leads(r, events, r')
    ensures r.sender.Running? ==> Turns(events) <= 1 && (r'.sender.Returned? <==> Turns(events) == 1)
    ensures r.sender.Returned? ==> Turns(events) == 0 && r'.sender == r.sender
    ensures r'.done
    decreases |events|
  {
    hide Turn, Poured, Arrivals, ReceivedByPourIn;
    if events == [] {
    } else {
      OneTurnAfterDone(After(r, events[0]), events[1..], r');
    }
  }

  /** What of the messages accepted has not been batched. */
  function Unsent(r: Reporter): seq<Message>
    requires !r.sender.NotStarted?
  {
    Held(r.sender.run.bucket) + NotTooBig(r.hwm, r.queue)
  }

  lemma UnsentIs(r: Reporter)
    requires Inv(r) && !r.sender.NotStarted?
    ensures Joined(r.sender.run.batches) + Unsent(r) == NotTooBig(r.hwm, r.accepted)
  {
    var run := r.sender.run;
    FittingIs(r.hwm, run.received);
    NotTooBigAppend(r.hwm, Arrivals(run.received), r.queue);
    Regroup(Joined(run.batches), Held(run.bucket), NotTooBig(r.hwm, r.queue));
  }

  /** In every run of a reporter, batches, what the bucket holds, and the queue are the messages
      accepted that are not too big, in order; so once the sender has returned, what is lost is
      what its bucket and the queue hold. */
  lemma LostIsWhatIsHeld(hwm: nat, events: seq<Event>, r: Reporter)
    requires Leads(NewReporter(hwm), events, r) && !r.sender.NotStarted?
    ensures Joined(r.sender.run.batches) + Unsent(r) == NotTooBig(r.hwm, r.accepted)
  {
    NewReporterInv(hwm);
    RunKeepsReporter(NewReporter(hwm), events, r);
    UnsentIs(r);
  }

  lemma LeftNothingIff(b: State, content: seq<Message>, closing: bool)
    ensures Left(b.hwm, b.graceful, content, closing) == [] <==>
      content == [] || (if closing then b.graceful && Bytes(content) != 0 else Bytes(content) <= b.hwm)
  {
  }

  /** The last turn leaves nothing unsent just when no message that fits is left in the queue and:
      there was nothing to lose; or, if it received the closing, the bucket is graceful and has
      bytes; or, if it did not, everything fitted. What the bucket holds then is never more bytes
      than the high watermark. */
  lemma LastTurnLosesNothingIff(r: Reporter, signals: seq<Signal>, meanwhile: seq<Message>)
    requires Inv(r) && Enabled(r, TakeTurn(signals, meanwhile)) && r.done
    ensures var b := r.sender.run.bucket;
      var content, closing := Content(b, signals), EndsClosing(signals, ReceivedByPourIn(b, signals));
      var r' := After(r, TakeTurn(signals, meanwhile));
      && r'.sender.Returned?
      && Unsent(r') == Left(b.hwm, b.graceful, content, closing) + NotTooBig(r.hwm, r'.queue)
      && Bytes(Held(r'.sender.run.bucket)) <= b.hwm
      && Joined(r'.sender.run.batches) + Unsent(r') == NotTooBig(r.hwm, r'.accepted)
      && (Unsent(r') == [] <==>
            && NotTooBig(r.hwm, r'.queue) == []
            && (content == [] || (if closing then b.graceful && Bytes(content) != 0 else Bytes(content) <= b.hwm)))
  {
    hide Faithful, Poured, NotTooBig, Arrivals, Joined;
    var b, r' := r.sender.run.bucket, After(r, TakeTurn(signals, meanwhile));
    TurnLeaves(r.sender.run, signals);
    StepKeepsReporter(r, TakeTurn(signals, meanwhile));
    UnsentIs(r');
    LeftNothingIff(b, Content(b, signals), EndsClosing(signals, ReceivedByPourIn(b, signals)));
  }

  /** So the sender of a reporter that was running loses all its bucket holds, when it receives
      the closing before the bucket fills. */
  lemma ClosingLosesTheBucket(hwm: nat, m: Message)
    requires |m| <= hwm
    ensures var r := Turn(Run(Empty(hwm, false).(neverDrained := false), [], []), [Arrival(m), Closing]);
      |r.received| == 2 && r.batches == [] && r.bucket.water == [m]
  {
    var b := Empty(hwm, false).(neverDrained := false);
    var signals := [Arrival(m), Closing];
    var p := Start(b);
    var q := Next(p, signals[0]);
    assert signals[1..] == [Closing] && signals[1..][1..] == [];
    assert q.bucket.water == [m] && !q.done;
    assert Next(q, Closing).done && Next(q, Closing).bucket == q.bucket;
    assert Poured(p, signals) == Poured(q, signals[1..]) == Next(q, Closing);
    assert Received(q, signals[1..]) == 1 && Received(p, signals) == 2;
    assert |Step(Run(b, [], []), PourIn(signals)).received| == 2;
  }

  /** And a message that was one too many is lost when done is closed by the end of that turn,
      graceful or not. */
  lemma OneMessageCanBeLeft(graceful: bool)
    ensures var r := Turn(Run(Empty(1, graceful).(neverDrained := false), [], []), [Arrival([1]), Arrival([2])]);
      |r.received| == 2 && r.batches == [[[1]]] && r.bucket.waitingList == [[2]]
  {
    var b := Empty(1, graceful).(neverDrained := false);
    var signals := [Arrival([1]), Arrival([2])];
    var p := Start(b);
    var q := Next(p, signals[0]);
    assert signals[1..] == [signals[1]] && signals[1..][1..] == [];
    assert q.bucket.water == [[1]] && q.bucket.watermark == 1;
    assert Next(q, signals[1]).bucket.waitingList == [[2]];
    assert Poured(p, signals) == Poured(q, signals[1..]) == Next(q, signals[1]);
    assert Received(q, signals[1..]) == 1 && Received(p, signals) == 2;
    assert |Step(Run(b, [], []), PourIn(signals)).received| == 2;
  }
}
