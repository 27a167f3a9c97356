/** Ends of one span, or of the trace, that run at the same time. Both look whether it has ended
    and then take the lock; only the end of a trace looks again once it has the lock. */
module EndRace {

  datatype Pc = Looking | Waiting | Done

  /** exits is how many exit events were reported. */
  datatype State = State(threads: seq<Pc>, ended: bool, exits: nat)

  /** Goroutine t looks, or gets the lock, reports and lets it go. */
  function Step(s: State, t: nat, looksAgain: bool): State
    requires t < |s.threads|
  {
    match s.threads[t]
    case Looking => s.(threads := s.threads[t := if s.ended then Done else Waiting])
    case Waiting =>
      if looksAgain && s.ended then s.(threads := s.threads[t := Done])
      else State(s.threads[t := Done], true, s.exits + 1)
    case Done => s
  }

  predicate Known(schedule: seq<nat>, threads: nat) {
    forall i | 0 <= i < |schedule| :: schedule[i] < threads
  }

  function After(s: State, schedule: seq<nat>, looksAgain: bool): (s': State)
    requires Known(schedule, |s.threads|)
    ensures |s'.threads| == |s.threads|
    decreases |schedule|
  {
    if schedule == [] then s else After(Step(s, schedule[0], looksAgain), schedule[1..], looksAgain)
  }

  function Start(threads: nat): State {
    State(seq(threads, _ => Looking), false, 0)
  }

  lemma {:induction false} CountedOnce(s: State, schedule: seq<nat>)
    requires Known(schedule, |s.threads|) && s.exits == if s.ended then 1 else 0
    ensures var s' := After(s, schedule, true); s'.exits == if s'.ended then 1 else 0
    decreases |schedule|
  {
    if schedule == [] {
    } else {
      CountedOnce(Step(s, schedule[0], true), schedule[1..]);
    }
  }

  /** A trace has one exit once it has ended, however many goroutines end it at once. */
  lemma TraceExitsOnce(threads: nat, schedule: seq<nat>)
    requires Known(schedule, threads)
    ensures var s := After(Start(threads), schedule, true); s.exits == if s.ended then 1 else 0
  {
    CountedOnce(Start(threads), schedule);
  }

  /** Once a goroutine is done, the end is there. */
  lemma {:induction false} DoneAfterEnd(s: State, schedule: seq<nat>, looksAgain: bool)
    requires Known(schedule, |s.threads|)
    requires forall t | 0 <= t < |s.threads| && s.threads[t] == Done :: s.ended
    ensures var s' := After(s, schedule, looksAgain);
      && (s.ended ==> s'.ended)
      && (forall t | 0 <= t < |s.threads| && s.threads[t] != Looking :: s'.threads[t] != Looking)
      && (forall t | 0 <= t < |s.threads| && s'.threads[t] == Done :: s'.ended)
      && (schedule != [] ==> s'.threads[schedule[0]] != Looking)
    decreases |schedule|
  {
    if schedule == [] {
    } else {
      DoneAfterEnd(Step(s, schedule[0], looksAgain), schedule[1..], looksAgain);
    }
  }

  /** So once a goroutine has looked and nobody waits, a trace has ended, and with one exit. */
  lemma TraceEnds(threads: nat, schedule: seq<nat>)
    requires Known(schedule, threads) && schedule != []
    requires forall t | 0 <= t < threads :: After(Start(threads), schedule, true).threads[t] != Waiting
    ensures var s := After(Start(threads), schedule, true); s.ended && s.exits == 1
  {
    DoneAfterEnd(Start(threads), schedule, true);
    TraceExitsOnce(threads, schedule);
  }

  function NumWaiting(threads: seq<Pc>): nat {
    if threads == [] then 0
    else NumWaiting(threads[..|threads| - 1]) + (if threads[|threads| - 1] == Waiting then 1 else 0)
  }

  /** How many goroutines look before the span has ended. */
  function Looks(s: State, schedule: seq<nat>): nat
    requires Known(schedule, |s.threads|)
    decreases |schedule|
  {
    if schedule == [] then 0
    else
      var early := s.threads[schedule[0]] == Looking && !s.ended;
      (if early then 1 else 0) + Looks(Step(s, schedule[0], false), schedule[1..])
  }

  lemma {:induction false} NumWaitingChange(threads: seq<Pc>, t: nat, pc: Pc)
    requires t < |threads|
    ensures NumWaiting(threads[t := pc]) + (if threads[t] == Waiting then 1 else 0)
         == NumWaiting(threads) + (if pc == Waiting then 1 else 0)
  {
    var n := |threads| - 1;
    if t == n {
      assert threads[t := pc][..n] == threads[..n];
    } else {
      assert threads[t := pc][..n] == threads[..n][t := pc];
      NumWaitingChange(threads[..n], t, pc);
    }
  }

  /** Every goroutine that looks before a span has ended reports an exit or still waits to. */
  lemma {:induction false} EveryLookExits(s: State, schedule: seq<nat>)
    requires Known(schedule, |s.threads|)
    ensures var s' := After(s, schedule, false);
      s'.exits + NumWaiting(s'.threads) == s.exits + NumWaiting(s.threads) + Looks(s, schedule)
    decreases |schedule|
  {
    if schedule == [] {
    } else {
      var t, s' := schedule[0], Step(s, schedule[0], false);
      if s.threads[t] != Done { NumWaitingChange(s.threads, t, s'.threads[t]); }
      EveryLookExits(s', schedule[1..]);
    }
  }

  lemma {:induction false} NobodyWaits(threads: seq<Pc>)
    requires forall t | 0 <= t < |threads| :: threads[t] != Waiting
    ensures NumWaiting(threads) == 0
  {
    if threads == [] {
    } else {
      NobodyWaits(threads[..|threads| - 1]);
    }
  }

  /** So once nobody waits, a span has as many exits as goroutines looked before it had ended, and
      it has one exit just when one did. */
  lemma SpanExitsOnceIff(threads: nat, schedule: seq<nat>)
    requires Known(schedule, threads)
    requires forall t | 0 <= t < threads :: After(Start(threads), schedule, false).threads[t] != Waiting
    ensures var s := After(Start(threads), schedule, false);
      s.exits == Looks(Start(threads), schedule) && (s.exits == 1 <==> Looks(Start(threads), schedule) == 1)
  {
    EveryLookExits(Start(threads), schedule);
    NobodyWaits(Start(threads).threads);
    NobodyWaits(After(Start(threads), schedule, false).threads);
  }

  /** So a span that two goroutines end at once can report two exits. */
  lemma SpanCanExitTwice()
    ensures After(Start(2), [0, 1, 0, 1], false).exits == 2
  {
    var s0 := Start(2);
    var s1 := Step(s0, 0, false);
    var s2 := Step(s1, 1, false);
    var s3 := Step(s2, 0, false);
    assert [0, 1, 0, 1][1..] == [1, 0, 1] && [1, 0, 1][1..] == [0, 1] && [0, 1][1..] == [1] && [1][1..] == [];
    assert After(s3, [1], false) == Step(s3, 1, false);
    assert After(s2, [0, 1], false) == After(s3, [1], false);
    assert After(s1, [1, 0, 1], false) == After(s2, [0, 1], false);
  }
}
