/** The bucket that batches event messages between the message queue and the sender. */
module BytesBucket {
  import opened Common

  type Message = seq<Byte>

  /** What PourIn can receive while it waits; a closed channel is received as Closing. */
  datatype Signal = Arrival(message: Message) | Timeout | Closing

  datatype State = State(hwm: nat, graceful: bool, water: seq<Message>, watermark: int, waitingList: seq<Message>,
                         full: bool, neverDrained: bool, dropped: nat)

  const MAX_WAITING := 100

  function Bytes(messages: seq<Message>): nat {
    if messages == [] then 0 else Bytes(messages[..|messages| - 1]) + |messages[|messages| - 1]|
  }

  function Empty(hwm: nat, graceful: bool): State {
    State(hwm, graceful, [], 0, [], false, true, 0)
  }

  function Fits(b: State, m: Message): bool {
    |m| <= b.hwm - b.watermark
  }

  function Added(b: State, m: Message): State {
    b.(water := b.water + [m], watermark := b.watermark + |m|)
  }

  /** Messages that were waiting are poured first, while they fit. */
  function Moved(b: State): State
    decreases |b.waitingList|
  {
    if b.waitingList == [] || !Fits(b, b.waitingList[0]) then b
    else Moved(Added(b, b.waitingList[0]).(waitingList := b.waitingList[1..]))
  }

  function Overflowed(b: State, m: Message): State {
    b.(waitingList := if |b.waitingList| <= MAX_WAITING then b.waitingList + [m] else b.waitingList, full := true)
  }

  /** PourIn under way: the flag says to stop at the first message, and done that it has stopped. */
  datatype Pouring = Pouring(bucket: State, drainASAP: bool, done: bool)

  function Next(p: Pouring, signal: Signal): Pouring {
    var b := p.bucket;
    match signal
    case Arrival(m) =>
      if |m| > b.hwm then p.(bucket := b.(dropped := b.dropped + 1))
      else if !Fits(b, m) then p.(bucket := Overflowed(b, m), done := true)
      else if p.drainASAP then p.(bucket := Added(b, m).(full := true), done := true)
      else p.(bucket := Added(b, m))
    case Timeout =>
      if b.watermark != 0 then p.(bucket := b.(full := true), done := true) else p.(drainASAP := true)
    case Closing =>
      p.(bucket := if b.graceful && b.watermark != 0 then b.(full := true) else b, done := true)
  }

  /** Receives signals until it has stopped, or they run out. */
  function Poured(p: Pouring, signals: seq<Signal>): Pouring
    decreases |signals|
  {
    if p.done || signals == [] then p else Poured(Next(p, signals[0]), signals[1..])
  }

  /** How many signals that takes. */
  function Received(p: Pouring, signals: seq<Signal>): (n: nat)
    ensures n <= |signals|
    decreases |signals|
  {
    if p.done || signals == [] then 0 else Received(Next(p, signals[0]), signals[1..]) + 1
  }

  lemma PouringStep(p: Pouring, signals: seq<Signal>)
    ensures !p.done && signals != [] ==>
      var p' := Next(p, signals[0]);
      Poured(p, signals) == Poured(p', signals[1..]) && Received(p, signals) == Received(p', signals[1..]) + 1
    ensures p.done || signals == [] ==> Poured(p, signals) == p && Received(p, signals) == 0
  {
  }

  function Start(b: State): Pouring {
    Pouring(Moved(b), b.neverDrained, false)
  }

  function AfterPourIn(b: State, signals: seq<Signal>): State {
    if b.full then b else Poured(Start(b), signals).bucket
  }

  function ReceivedByPourIn(b: State, signals: seq<Signal>): (n: nat)
    ensures n <= |signals|
  {
    if b.full then 0 else Received(Start(b), signals)
  }

  function AfterDrain(b: State): State {
    b.(water := [], watermark := 0, full := false, neverDrained := false, dropped := 0)
  }

  class Bucket {
    const hwm: nat
    const graceful: bool
    var water: seq<Message>
    var watermark: int
    var waitingList: seq<Message>
    var full: bool
    var neverDrained: bool
    var dropped: nat

    ghost function Abs(): State
      reads this
    {
      State(hwm, graceful, water, watermark, waitingList, full, neverDrained, dropped)
    }

    constructor (hwm: nat, graceful: bool)
      ensures Abs() == Empty(hwm, graceful)
      ensures water == [] && waitingList == [] && watermark == 0 && !full && neverDrained && dropped == 0
    {
      this.hwm, this.graceful := hwm, graceful;
      water, watermark, waitingList, full, neverDrained, dropped := [], 0, [], false, true, 0;
    }

    /** Pours the messages that were left waiting, while they fit. */
    method PourWaiting()
      modifies this`water, this`watermark, this`waitingList
      ensures Abs() == Moved(old(Abs()))
    {
      while |waitingList| != 0
        invariant Moved(Abs()) == Moved(old(Abs()))
        decreases |waitingList|
      {
        if |waitingList[0]| <= hwm - watermark {
          watermark := watermark + |waitingList[0]|;
          water := water + [waitingList[0]];
          waitingList := waitingList[1..];
        } else {
          break;
        }
      }
    }

    /** What one signal does to the bucket and to the flags of the pouring. */
    method Receive(signal: Signal, asap: bool) returns (drainASAP: bool, done: bool)
      modifies this`water, this`watermark, this`waitingList, this`full, this`dropped
      ensures Pouring(Abs(), drainASAP, done) == Next(Pouring(old(Abs()), asap, false), signal)
    {
      drainASAP, done := asap, false;
      match signal {
        case Arrival(m) =>
          if |m| > hwm {
            dropped := dropped + 1;
          } else if |m| <= hwm - watermark {
            watermark := watermark + |m|;
            water := water + [m];
            if drainASAP {
              full, done := true, true;
            }
          } else {
            if |waitingList| <= MAX_WAITING {
              waitingList := waitingList + [m];
            }
            full, done := true, true;
          }
        case Timeout =>
          if watermark != 0 {
            full, done := true, true;
          } else {
            drainASAP := true;
          }
        case Closing =>
          if graceful && watermark != 0 {
            full := true;
          }
          done := true;
      }
    }

    /** Pours as much as possible, receiving signals as they come. The result is how many bytes
        were poured, and how many signals were received; receiving all of them without filling
        the bucket is the case where the call would block. */
    method PourIn(signals: seq<Signal>) returns (poured: int, received: nat)
      modifies this`water, this`watermark, this`waitingList, this`full, this`dropped
      ensures Abs() == AfterPourIn(old(Abs()), signals)
      ensures received == ReceivedByPourIn(old(Abs()), signals)
      ensures poured == watermark - old(watermark)
    {
      if full {
        return 0, 0;
      }
      hide Poured, Received, Moved, Next;
      var oldWM := watermark;
      PourWaiting();
      ghost var start := Pouring(Abs(), neverDrained, false);
      var drainASAP, done := neverDrained, false;
      received := 0;
      while received < |signals| && !done
        invariant received <= |signals|
        invariant Poured(Pouring(Abs(), drainASAP, done), signals[received..]) == Poured(start, signals)
        invariant Received(Pouring(Abs(), drainASAP, done), signals[received..]) + received == Received(start, signals)
      {
        ghost var before := Pouring(Abs(), drainASAP, done);
        PouringStep(before, signals[received..]);
        assert signals[received..][1..] == signals[received + 1..];
        drainASAP, done := Receive(signals[received], drainASAP);
        received := received + 1;
      }
      PouringStep(Pouring(Abs(), drainASAP, done), signals[received..]);
      poured := watermark - oldWM;
    }

    method Drain() returns (batch: seq<Message>)
      modifies this
      ensures batch == old(water) && Abs() == AfterDrain(old(Abs()))
      ensures water == [] && watermark == 0 && !full && !neverDrained && dropped == 0
      ensures waitingList == old(waitingList)
    {
      batch := water;
      water := [];
      watermark := 0;
      full := false;
      neverDrained := false;
      dropped := 0;
    }
  }

  // ---------------------------------------------------------------- every run

  /** The watermark is the size of the water and within bounds; at most one message waits, one
      that the bucket can hold, and only while it is full or has just been drained. */
  predicate Sound(b: State) {
    && b.watermark == Bytes(b.water) <= b.hwm
    && |b.waitingList| <= 1 && (forall m | m in b.waitingList :: |m| <= b.hwm)
    && (b.waitingList != [] && !b.full ==> b.watermark == 0)
  }

  /** The messages of signals that are not too big for the bucket, in order. */
  function Fitting(hwm: nat, signals: seq<Signal>): seq<Message> {
    if signals == [] then []
    else
      var rest := Fitting(hwm, signals[1..]);
      if signals[0].Arrival? && |signals[0].message| <= hwm then [signals[0].message] + rest else rest
  }

  function Held(b: State): seq<Message> {
    b.water + b.waitingList
  }

  lemma BytesAppend(messages: seq<Message>, m: Message)
    ensures Bytes(messages + [m]) == Bytes(messages) + |m|
  {
    assert (messages + [m])[..|messages|] == messages;
  }

  lemma {:induction false} MovedKeeps(b: State)
    requires Sound(b) && !b.full
    ensures Sound(Moved(b)) && Moved(b).waitingList == [] && Held(Moved(b)) == Held(b)
    ensures Moved(b).hwm == b.hwm && Moved(b).graceful == b.graceful && !Moved(b).full
  {
    hide Bytes;
    if b.waitingList == [] {
    } else {
      var m := b.waitingList[0];
      assert b.waitingList == [m];
      BytesAppend(b.water, m);
      var b' := Added(b, m).(waitingList := b.waitingList[1..]);
      assert b'.waitingList == [];
      assert Moved(b) == b';
    }
  }

  /** While it pours nothing waits, so a message that overflows the bucket always finds room
      to wait. */
  predicate SoundPouring(p: Pouring) {
    Sound(p.bucket) && (!p.done ==> !p.bucket.full && p.bucket.waitingList == [])
  }

  lemma FittingOne(hwm: nat, signal: Signal)
    ensures Fitting(hwm, [signal]) == if signal.Arrival? && |signal.message| <= hwm then [signal.message] else []
  {
    assert [signal][1..] == [];
  }

  lemma ArrivalKeeps(p: Pouring, m: Message)
    requires SoundPouring(p) && !p.done && |m| <= p.bucket.hwm
    ensures SoundPouring(Next(p, Arrival(m))) && Held(Next(p, Arrival(m)).bucket) == Held(p.bucket) + [m]
  {
    var b := p.bucket;
    if Fits(b, m) {
      BytesAppend(b.water, m);
      assert Held(Added(b, m)) == b.water + [m];
    } else {
      assert Held(Overflowed(b, m)) == b.water + [m];
    }
  }

  lemma NextKeeps(p: Pouring, signal: Signal)
    requires SoundPouring(p) && !p.done
    ensures SoundPouring(Next(p, signal)) && Next(p, signal).bucket.hwm == p.bucket.hwm
    ensures Held(Next(p, signal).bucket) == Held(p.bucket) + Fitting(p.bucket.hwm, [signal])
  {
    FittingOne(p.bucket.hwm, signal);
    if signal.Arrival? && |signal.message| <= p.bucket.hwm {
      ArrivalKeeps(p, signal.message);
    }
  }

  lemma {:induction false} PouredKeeps(p: Pouring, signals: seq<Signal>)
    requires SoundPouring(p)
    ensures SoundPouring(Poured(p, signals)) && Poured(p, signals).bucket.hwm == p.bucket.hwm
    decreases |signals|
  {
    if !p.done && signals != [] {
      NextKeeps(p, signals[0]);
      PouredKeeps(Next(p, signals[0]), signals[1..]);
    }
  }

  lemma {:induction false} FittingAppends(hwm: nat, a: seq<Signal>, b: seq<Signal>)
    ensures Fitting(hwm, a + b) == Fitting(hwm, a) + Fitting(hwm, b)
  {
    if a == [] {
      assert a + b == b;
    } else {
      FittingAppends(hwm, a[1..], b);
      assert (a + b)[1..] == a[1..] + b;
      if a[0].Arrival? { Regroup([a[0].message], Fitting(hwm, a[1..]), Fitting(hwm, b)); }
    }
  }

  /** What is held grows by the fitting messages received. */
  lemma {:induction false} PouredHolds(p: Pouring, signals: seq<Signal>)
    requires SoundPouring(p)
    ensures Held(Poured(p, signals).bucket)
         == Held(p.bucket) + Fitting(p.bucket.hwm, signals[..Received(p, signals)])
    decreases |signals|
  {
    if !p.done && signals != [] {
      var s, rest := signals[0], signals[1..];
      var later := rest[..Received(Next(p, s), rest)];
      NextKeeps(p, s);
      PouredHolds(Next(p, s), rest);
      FittingAppends(p.bucket.hwm, [s], later);
      assert signals[..Received(p, signals)] == [s] + later;
      Regroup(Held(p.bucket), Fitting(p.bucket.hwm, [s]), Fitting(p.bucket.hwm, later));
    }
  }

  lemma AfterPourInKeeps(b: State, signals: seq<Signal>)
    requires Sound(b)
    ensures var b' := AfterPourIn(b, signals);
      && Sound(b') && b'.hwm == b.hwm
      && Held(b') == Held(b) + Fitting(b.hwm, signals[..ReceivedByPourIn(b, signals)])
  {
    if !b.full {
      MovedKeeps(b);
      PouredKeeps(Start(b), signals);
      PouredHolds(Start(b), signals);
    }
  }

  // ---------------------------------------------------------------- when pouring ends

  /** The messages in the bucket, if it were bottomless, when signal i comes. */
  ghost function Before(b: State, signals: seq<Signal>, i: nat): seq<Message>
    requires i <= |signals|
  {
    Held(b) + Fitting(b.hwm, signals[..i])
  }

  /** The next message is to be drained at once: the bucket was never drained, or there were no
      bytes yet when a timeout came. */
  ghost predicate Hurried(b: State, signals: seq<Signal>, i: nat)
    requires i <= |signals|
  {
    b.neverDrained || exists j :: 0 <= j < i && signals[j] == Timeout && Bytes(Before(b, signals, j)) == 0
  }

  /** A message that the bucket could hold, but not with what it holds. */
  ghost predicate TooMuch(b: State, signals: seq<Signal>, i: nat)
    requires i < |signals|
  {
    signals[i].Arrival? && |signals[i].message| <= b.hwm < Bytes(Before(b, signals, i)) + |signals[i].message|
  }

  /** Signal i ends the pouring: a message that does not fit any more, or the first that does if it is
      to be drained at once; a timeout, if there are bytes; or the closing. */
  ghost predicate Stops(b: State, signals: seq<Signal>, i: nat)
    requires i < |signals|
  {
    match signals[i]
    case Arrival(m) => |m| <= b.hwm && (TooMuch(b, signals, i) || Hurried(b, signals, i))
    case Timeout => Bytes(Before(b, signals, i)) != 0
    case Closing => true
  }

  /** How many messages are too big for any bucket. */
  function TooBig(hwm: nat, signals: seq<Signal>): nat {
    if signals == [] then 0
    else
      var last := |signals| - 1;
      TooBig(hwm, signals[..last]) + (if signals[last].Arrival? && |signals[last].message| > hwm then 1 else 0)
  }

  /** A pouring before signal i, which none before has ended. */
  ghost predicate PouringAt(b: State, signals: seq<Signal>, i: nat, p: Pouring)
    requires i <= |signals|
  {
    && Sound(p.bucket) && !p.done && !p.bucket.full && p.bucket.water == Before(b, signals, i)
    && p.bucket.waitingList == [] && p.bucket.hwm == b.hwm && p.bucket.graceful == b.graceful
    && p.bucket.neverDrained == b.neverDrained && p.bucket.dropped == b.dropped + TooBig(b.hwm, signals[..i])
    && (p.drainASAP <==> Hurried(b, signals, i))
  }

  lemma OneMore(b: State, signals: seq<Signal>, i: nat)
    requires i < |signals|
    ensures Before(b, signals, i + 1)
         == Before(b, signals, i)
          + (if signals[i].Arrival? && |signals[i].message| <= b.hwm then [signals[i].message] else [])
    ensures TooBig(b.hwm, signals[..i + 1])
         == TooBig(b.hwm, signals[..i]) + (if signals[i].Arrival? && |signals[i].message| > b.hwm then 1 else 0)
    ensures Hurried(b, signals, i + 1) <==>
      Hurried(b, signals, i) || (signals[i] == Timeout && Bytes(Before(b, signals, i)) == 0)
  {
    assert signals[..i + 1] == signals[..i] + [signals[i]] && signals[..i + 1][..i] == signals[..i];
    FittingAppends(b.hwm, signals[..i], [signals[i]]);
    FittingOne(b.hwm, signals[i]);
    Regroup(Held(b), Fitting(b.hwm, signals[..i]), Fitting(b.hwm, [signals[i]]));
  }

  /** A bucket whose pouring was ended by the n-th signal. */
  ghost predicate EndedAt(b: State, signals: seq<Signal>, n: nat, b': State)
    requires 0 < n <= |signals|
  {
    && Stops(b, signals, n - 1)
    && b'.water + b'.waitingList == Before(b, signals, n) && b'.watermark == Bytes(b'.water)
    && b'.waitingList == (if TooMuch(b, signals, n - 1) then [signals[n - 1].message] else [])
    && (b'.full <==> (signals[n - 1] == Closing ==> b.graceful && Bytes(Before(b, signals, n - 1)) != 0))
    && b'.dropped == b.dropped + TooBig(b.hwm, signals[..n])
    && b'.hwm == b.hwm && b'.graceful == b.graceful && b'.neverDrained == b.neverDrained
  }

  /** What a pouring is after signal i. */
  lemma NextAt(b: State, signals: seq<Signal>, i: nat, p: Pouring)
    requires i < |signals| && PouringAt(b, signals, i, p)
    ensures var p' := Next(p, signals[i]);
      && (p'.done <==> Stops(b, signals, i))
      && (!p'.done ==> PouringAt(b, signals, i + 1, p'))
      && (p'.done ==> EndedAt(b, signals, i + 1, p'.bucket))
  {
    hide Fitting, Bytes, Hurried, TooBig;
    NextKeeps(p, signals[i]);
    OneMore(b, signals, i);
    assert Before(b, signals, i) + [] == Before(b, signals, i);
    if signals[i].Arrival? {
      var m := signals[i].message;
      BytesAppend(p.bucket.water, m);
      assert p.bucket.water + [m] + [] == p.bucket.water + [m];
    }
  }

  /** A bucket into which all signals have been poured, and which waits for more. */
  ghost predicate NotEnded(b: State, signals: seq<Signal>, b': State) {
    && b'.water == Before(b, signals, |signals|) && b'.watermark == Bytes(b'.water)
    && b'.waitingList == [] && !b'.full && b'.dropped == b.dropped + TooBig(b.hwm, signals)
    && b'.hwm == b.hwm && b'.graceful == b.graceful && b'.neverDrained == b.neverDrained
  }

  lemma {:induction false} PouredAt(b: State, signals: seq<Signal>, i: nat, p: Pouring)
    requires i <= |signals| && PouringAt(b, signals, i, p)
    ensures var n, b' := i + Received(p, signals[i..]), Poured(p, signals[i..]).bucket;
      && n <= |signals|
      && (forall j | i <= j < n - 1 :: !Stops(b, signals, j))
      && (n == |signals| && (n == i || !Stops(b, signals, n - 1)) ==> NotEnded(b, signals, b'))
      && (n > i && Stops(b, signals, n - 1) ==> EndedAt(b, signals, n, b'))
      && (n < |signals| ==> n > i && Stops(b, signals, n - 1))
    decreases |signals| - i
  {
    hide Next, Stops, Before, TooBig, Hurried, TooMuch, Bytes;
    PouringStep(p, signals[i..]);
    if i == |signals| {
      assert signals[..i] == signals;
    } else {
      var p' := Next(p, signals[i]);
      assert signals[i..][0] == signals[i] && signals[i..][1..] == signals[i + 1..];
      NextAt(b, signals, i, p);
      if p'.done {
        PouringStep(p', signals[i + 1..]);
      } else {
        PouredAt(b, signals, i + 1, p');
      }
    }
  }

  lemma MovedRest(b: State)
    requires Sound(b) && !b.full
    ensures Moved(b).neverDrained == b.neverDrained && Moved(b).dropped == b.dropped
  {
    if b.waitingList != [] { assert b.waitingList[1..] == []; }
  }

  lemma StartsAt(b: State, signals: seq<Signal>)
    requires Sound(b) && !b.full
    ensures PouringAt(b, signals, 0, Start(b))
  {
    hide Bytes, Moved;
    MovedKeeps(b);
    MovedRest(b);
    assert signals[..0] == [];
    assert Held(b) + [] == Held(b) && Moved(b).water + [] == Moved(b).water;
  }

  /** PourIn receives signals up to the first that ends it, or all of them. What it leaves in the
      bucket is what it found there and the messages it received that can be held; the last of them
      waits if it was one too many; and the bucket is full unless it waits for more signals, or was
      closed with no bytes in it or not gracefully. */
  lemma PourInIs(b: State, signals: seq<Signal>)
    requires Sound(b) && !b.full
    ensures var n, b' := ReceivedByPourIn(b, signals), AfterPourIn(b, signals);
      && (forall i | 0 <= i < n - 1 :: !Stops(b, signals, i))
      && (if n > 0 && Stops(b, signals, n - 1) then EndedAt(b, signals, n, b')
          else n == |signals| && NotEnded(b, signals, b'))
  {
    hide Stops, EndedAt, NotEnded, Poured, Received, PouringAt, Moved, Sound, Held, Fitting;
    StartsAt(b, signals);
    assert signals[0..] == signals;
    PouredAt(b, signals, 0, Start(b));
  }

  datatype Op = PourIn(signals: seq<Signal>) | Drain

  /** A run: the bucket after it, the batches drained, and the signals received. */
  datatype Run = Run(bucket: State, batches: seq<seq<Message>>, received: seq<Signal>)

  function Step(r: Run, op: Op): Run {
    match op
    case PourIn(signals) =>
      Run(AfterPourIn(r.bucket, signals), r.batches, r.received + signals[..ReceivedByPourIn(r.bucket, signals)])
    case Drain => Run(AfterDrain(r.bucket), r.batches + [r.bucket.water], r.received)
  }

  function RunOf(r: Run, ops: seq<Op>): Run
    decreases |ops|
  {
    if ops == [] then r else RunOf(Step(r, ops[0]), ops[1..])
  }

  function Joined(batches: seq<seq<Message>>): seq<Message> {
    if batches == [] then [] else Joined(batches[..|batches| - 1]) + batches[|batches| - 1]
  }

  /** Nothing is lost or reordered: what was drained and what is still held are the fitting
      messages received; and every batch is within the request size. */
  ghost predicate Faithful(r: Run) {
    && Sound(r.bucket)
    && Joined(r.batches) + Held(r.bucket) == Fitting(r.bucket.hwm, r.received)
    && forall k | 0 <= k < |r.batches| :: Bytes(r.batches[k]) <= r.bucket.hwm
  }

  lemma PourKeeps(r: Run, signals: seq<Signal>)
    requires Faithful(r)
    ensures Faithful(Step(r, PourIn(signals)))
  {
    var n := ReceivedByPourIn(r.bucket, signals);
    AfterPourInKeeps(r.bucket, signals);
    FittingAppends(r.bucket.hwm, r.received, signals[..n]);
    Regroup(Joined(r.batches), Held(r.bucket), Fitting(r.bucket.hwm, signals[..n]));
  }

  lemma JoinedAppend(batches: seq<seq<Message>>, batch: seq<Message>)
    ensures Joined(batches + [batch]) == Joined(batches) + batch
  {
    assert (batches + [batch])[..|batches|] == batches;
  }

  lemma DrainKeeps(r: Run)
    requires Faithful(r)
    ensures Faithful(Step(r, Drain))
  {
    var joined, b, waiting := Joined(r.batches), r.bucket.water, r.bucket.waitingList;
    JoinedAppend(r.batches, b);
    Regroup(joined, b, waiting);
    assert Held(AfterDrain(r.bucket)) == waiting;
  }

  lemma StepKeeps(r: Run, op: Op)
    requires Faithful(r)
    ensures Faithful(Step(r, op)) && Step(r, op).bucket.hwm == r.bucket.hwm
  {
    match op {
      case PourIn(signals) =>
        PourKeeps(r, signals);
        AfterPourInKeeps(r.bucket, signals);
      case Drain => DrainKeeps(r);
    }
  }

  lemma {:induction false} RunKeeps(r: Run, ops: seq<Op>)
    requires Faithful(r)
    ensures Faithful(RunOf(r, ops)) && RunOf(r, ops).bucket.hwm == r.bucket.hwm
    decreases |ops|
  {
    if ops == [] {
    } else {
      StepKeeps(r, ops[0]);
      RunKeeps(Step(r, ops[0]), ops[1..]);
    }
  }

  /** Over every run of a new bucket, the batches drained, what is in the bucket and what waits
      are exactly the received messages of at most the high watermark, in order of arrival;
      no batch is bigger than the high watermark; and at most one message ever waits, so none
      is dropped for want of room to wait. */
  lemma EveryRunIsFaithful(hwm: nat, graceful: bool, ops: seq<Op>)
    ensures var r := RunOf(Run(Empty(hwm, graceful), [], []), ops);
      && Joined(r.batches) + r.bucket.water + r.bucket.waitingList == Fitting(hwm, r.received)
      && r.bucket.watermark == Bytes(r.bucket.water) <= hwm && |r.bucket.waitingList| <= 1
      && forall k | 0 <= k < |r.batches| :: Bytes(r.batches[k]) <= hwm
  {
    var r := RunOf(Run(Empty(hwm, graceful), [], []), ops);
    RunKeeps(Run(Empty(hwm, graceful), [], []), ops);
    Regroup(Joined(r.batches), r.bucket.water, r.bucket.waitingList);
  }
}
