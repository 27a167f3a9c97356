/** The connection that all remote calls share, under any interleaving of the goroutines that
    call, redirect and reconnect. Each step is one that the lock and the atomic flag order. */
module SharedConnection {
  import opened Common

  type Address = string

  /** A dialed connection; no two have the same id. */
  datatype Conn = Conn(id: nat, dialed: Address)

  /** Where a goroutine is. Testing to Leaving are inside the read lock, SettingAddress to
      Releasing inside the write lock, the others outside. */
  datatype Pc =
    | Idle
    | Testing                          // has not looked at the flag yet
    | Calling(used: Option<Conn>)      // found the flag set, and calls through the connection there is
    | TimedOut(used: Option<Conn>)     // the call timed out, and the flag is still to be cleared
    | Leaving
    | Looking                          // looks at the flag, to reconnect if need be
    | Wanting                          // found it clear, and waits for the write lock
    | SettingAddress(to: Address)      // was redirected
    | ClearingFlag                     // has set the new address
    | Checking                         // is to reconnect, and looks at the flag again
    | Dialing
    | Replacing(dialed: Conn)          // has dialed, and the old connection is still in place
    | Activating                       // the new one is in place, and the flag still to be set
    | Releasing

  /** outages counts how often the flag went from set to clear. calls and marks are history:
      the connection each call used, and the address then; the connection in place when a
      timeout cleared the flag, and the one that timed out. */
  datatype State = State(address: Address, active: bool, conn: Option<Conn>, dials: nat, outages: nat, threads: seq<Pc>,
                         calls: seq<(Option<Conn>, Address)>, marks: seq<(Option<Conn>, Option<Conn>)>)

  predicate Reads(pc: Pc) {
    pc.Testing? || pc.Calling? || pc.TimedOut? || pc.Leaving?
  }

  predicate Writes(pc: Pc) {
    || pc.SettingAddress? || pc.ClearingFlag? || pc.Checking? || pc.Dialing? || pc.Replacing? || pc.Activating?
    || pc.Releasing?
  }

  /** The read lock can be taken while nobody has the write lock, that one while nobody has either. */
  predicate MayRead(threads: seq<Pc>) {
    forall t | 0 <= t < |threads| :: !Writes(threads[t])
  }

  predicate MayWrite(threads: seq<Pc>) {
    forall t | 0 <= t < |threads| :: !Writes(threads[t]) && !Reads(threads[t])
  }

  /** What a goroutine turns to, or how its call or its dialing ends. */
  datatype Choice = Invoke | Redirect(to: Address) | LookAgain | CallEnds | CallTimesOut | DialSucceeds | DialFails

  /** Whether goroutine t can take a step, which is false while it waits for a lock. */
  predicate Enabled(s: State, t: nat, c: Choice) {
    && t < |s.threads|
    && match s.threads[t]
       case Idle => (c == Invoke && MayRead(s.threads)) || (c.Redirect? && MayWrite(s.threads)) || c == LookAgain
       case Wanting => MayWrite(s.threads)
       case _ => true
  }

  function Cleared(s: State): State {
    if s.active then s.(active := false, outages := s.outages + 1) else s
  }

  function Moved(s: State, t: nat, pc: Pc): State
    requires t < |s.threads|
  {
    s.(threads := s.threads[t := pc])
  }

  /** The step: where the goroutine gets to, and what it changes on the way. */
  function Step(s: State, t: nat, c: Choice): State
    requires Enabled(s, t, c)
  {
    match s.threads[t]
    case Idle => Moved(s, t, if c == Invoke then Testing else if c.Redirect? then SettingAddress(c.to) else Looking)
    case Testing =>
      if s.active then Moved(s, t, Calling(s.conn)).(calls := s.calls + [(s.conn, s.address)])
      else Moved(s, t, Leaving)
    case Calling(used) => Moved(s, t, if c == CallTimesOut then TimedOut(used) else Leaving)
    case TimedOut(used) => Moved(Cleared(s), t, Leaving).(marks := s.marks + [(s.conn, used)])
    case Leaving => Moved(s, t, Idle)
    case Looking => Moved(s, t, if s.active then Idle else Wanting)
    case Wanting => Moved(s, t, Checking)
    case SettingAddress(to) => Moved(s, t, ClearingFlag).(address := to)
    case ClearingFlag => Moved(Cleared(s), t, Releasing)
    case Checking => Moved(s, t, if s.active then Releasing else Dialing)
    case Dialing =>
      if c == DialSucceeds then Moved(s, t, Replacing(Conn(s.dials, s.address))).(dials := s.dials + 1)
      else Moved(s, t, Releasing)
    case Replacing(dialed) => Moved(s, t, Activating).(conn := Some(dialed))
    case Activating => Moved(s, t, Releasing).(active := true)
    case Releasing => Moved(s, t, Idle)
  }

  function Start(address: Address, threads: nat): State {
    State(address, false, None, 0, 0, seq(threads, _ => Idle), [], [])
  }

  // ---------------------------------------------------------------- invariants

  predicate DialedTo(conn: Option<Conn>, address: Address) {
    conn.Some? && conn.value.dialed == address
  }

  /** Whoever has the write lock has it alone. */
  ghost predicate Exclusive(threads: seq<Pc>) {
    forall t, u | 0 <= t < |threads| && 0 <= u < |threads| && t != u && Writes(threads[t]) ::
      !Writes(threads[u]) && !Reads(threads[u])
  }

  predicate Good(s: State) {
    (s.active ==> DialedTo(s.conn, s.address)) && s.dials <= s.outages + (if s.active then 1 else 0)
  }

  /** What holds where a goroutine is: outside the write lock an active connection is dialed to
      the current address, and a call is made through the connection that is in place. */
  predicate Here(s: State, pc: Pc) {
    match pc
    case Calling(used) => used == s.conn && DialedTo(s.conn, s.address)
    case TimedOut(used) => used == s.conn && DialedTo(s.conn, s.address)
    case ClearingFlag => s.dials <= s.outages + (if s.active then 1 else 0)
    case Dialing => !s.active && s.dials <= s.outages
    case Replacing(dialed) => !s.active && dialed.dialed == s.address && s.dials <= s.outages + 1
    case Activating => !s.active && DialedTo(s.conn, s.address) && s.dials <= s.outages + 1
    case _ => Good(s)
  }

  ghost predicate Inv(s: State) {
    && Exclusive(s.threads)
    && (MayRead(s.threads) ==> Good(s))
    && (forall t | 0 <= t < |s.threads| && (Reads(s.threads[t]) || Writes(s.threads[t])) :: Here(s, s.threads[t]))
    && (forall k | 0 <= k < |s.calls| :: DialedTo(s.calls[k].0, s.calls[k].1))
    && (forall k | 0 <= k < |s.marks| :: s.marks[k].0 == s.marks[k].1)
  }

  lemma StaysExclusive(s: State, t: nat, c: Choice)
    requires Exclusive(s.threads) && Enabled(s, t, c)
    ensures Exclusive(Step(s, t, c).threads)
  {
    var pc, pc' := s.threads[t], Step(s, t, c).threads[t];
    assert Step(s, t, c).threads == s.threads[t := pc'];
    if pc.Idle? || pc.Wanting? {
      assert Writes(pc') ==> MayWrite(s.threads);
      assert Reads(pc') ==> MayRead(s.threads);
    } else {
      assert (Writes(pc') ==> Writes(pc)) && (Reads(pc') ==> Reads(pc));
    }
  }

  /** Steps inside the write lock, while nobody else is inside either lock. */
  lemma WriterKeeps(s: State, t: nat, c: Choice)
    requires Inv(s) && Enabled(s, t, c) && Writes(s.threads[t])
    ensures Inv(Step(s, t, c))
  {
    StaysExclusive(s, t, c);
    var s' := Step(s, t, c);
    assert Here(s, s.threads[t]);
    assert s'.threads == s.threads[t := s'.threads[t]];
    assert if s.threads[t].Releasing? then Good(s') else Writes(s'.threads[t]) && Here(s', s'.threads[t]);
  }

  /** Steps inside the read lock, while nobody is inside the write lock. */
  lemma ReaderKeeps(s: State, t: nat, c: Choice)
    requires Inv(s) && Enabled(s, t, c) && Reads(s.threads[t])
    ensures Inv(Step(s, t, c))
  {
    StaysExclusive(s, t, c);
    var s' := Step(s, t, c);
    assert Here(s, s.threads[t]);
    assert MayRead(s.threads) && Good(s);
    assert s'.threads == s.threads[t := s'.threads[t]];
    assert Good(s') && Here(s', s'.threads[t]);
    forall u | 0 <= u < |s'.threads| && u != t && (Reads(s'.threads[u]) || Writes(s'.threads[u]))
      ensures Here(s', s'.threads[u])
    {
      assert Here(s, s.threads[u]) && Reads(s.threads[u]);
    }
  }

  /** Steps outside the locks change nothing but where the goroutine is. */
  lemma OutsideKeeps(s: State, t: nat, c: Choice)
    requires Inv(s) && Enabled(s, t, c) && !Reads(s.threads[t]) && !Writes(s.threads[t])
    ensures Inv(Step(s, t, c))
  {
    StaysExclusive(s, t, c);
    var s' := Step(s, t, c);
    var pc' := s'.threads[t];
    assert s'.threads == s.threads[t := pc'] && s' == s.(threads := s'.threads);
    assert MayWrite(s.threads) ==> MayRead(s.threads);
    assert Reads(pc') || Writes(pc') ==> Good(s) && Here(s', pc');
    if MayRead(s'.threads) {
      forall u | 0 <= u < |s.threads| ensures !Writes(s.threads[u]) {
        if u != t { assert !Writes(s'.threads[u]); }
      }
    }
    forall u | 0 <= u < |s'.threads| && u != t && (Reads(s'.threads[u]) || Writes(s'.threads[u]))
      ensures Here(s', s'.threads[u])
    {
      assert Here(s, s.threads[u]);
    }
  }

  lemma StepKeeps(s: State, t: nat, c: Choice)
    requires Inv(s) && Enabled(s, t, c)
    ensures Inv(Step(s, t, c))
  {
    if Writes(s.threads[t]) {
      WriterKeeps(s, t, c);
    } else if Reads(s.threads[t]) {
      ReaderKeeps(s, t, c);
    } else {
      OutsideKeeps(s, t, c);
    }
  }

  // ---------------------------------------------------------------- every interleaving

  /** s' is reached from s when the goroutines are scheduled so. */
  ghost predicate Leads(s: State, schedule: seq<(nat, Choice)>, s': State)
    decreases |schedule|
  {
    if schedule == [] then s' == s
    else
      && Enabled(s, schedule[0].0, schedule[0].1)
      && Leads(Step(s, schedule[0].0, schedule[0].1), schedule[1..], s')
  }

  lemma {:induction false} LeadsKeeps(s: State, schedule: seq<(nat, Choice)>, s': State)
    requires Inv(s) && Leads(s, schedule, s')
    ensures Inv(s')
    decreases |schedule|
  {
    if schedule == [] {
    } else {
      StepKeeps(s, schedule[0].0, schedule[0].1);
      LeadsKeeps(Step(s, schedule[0].0, schedule[0].1), schedule[1..], s');
    }
  }

  /** Under every interleaving: while nobody has the write lock, an active connection is one
      dialed to the current address; every call used a connection dialed to the address at the
      time; a timeout cleared the flag for the connection that timed out; and however many
      calls time out at once, there is at most one dialing for each outage, and the first. */
  lemma EveryInterleaving(address: Address, threads: nat, schedule: seq<(nat, Choice)>, s: State)
    requires Leads(Start(address, threads), schedule, s)
    ensures MayRead(s.threads) && s.active ==> s.conn.Some? && s.conn.value.dialed == s.address
    ensures forall k | 0 <= k < |s.calls| :: DialedTo(s.calls[k].0, s.calls[k].1)
    ensures forall k | 0 <= k < |s.marks| :: s.marks[k].0 == s.marks[k].1
    ensures s.dials <= s.outages + 1
  {
    LeadsKeeps(Start(address, threads), schedule, s);
    if !MayRead(s.threads) {
      var t :| 0 <= t < |s.threads| && Writes(s.threads[t]);
      assert Here(s, s.threads[t]);
    }
  }

  // ---------------------------------------------------------------- what a goroutine gets done

  lemma {:induction false} LeadsOn(a: State, x: seq<(nat, Choice)>, b: State, y: seq<(nat, Choice)>, c: State)
    requires Leads(a, x, b) && Leads(b, y, c)
    ensures Leads(a, x + y, c)
    decreases |x|
  {
    hide Step, Enabled;
    if x == [] {
      assert x + y == y;
    } else {
      assert (x + y)[1..] == x[1..] + y;
      LeadsOn(Step(a, x[0].0, x[0].1), x[1..], b, y, c);
    }
  }

  /** The same with goroutine t elsewhere. */
  function With(s: State, t: nat, pc: Pc): State
    requires t < |s.threads|
  {
    s.(threads := s.threads[t := pc])
  }

  /** Goroutine t takes a step from pc, which changes s to s' and gets it to pc'. */
  ghost predicate Goes(s: State, t: nat, pc: Pc, c: Choice, s': State, pc': Pc)
    requires t < |s.threads|
  {
    s'.threads == s.threads && Leads(With(s, t, pc), [(t, c)], With(s', t, pc'))
  }

  lemma Going(s: State, t: nat, pc: Pc, c: Choice, s': State, pc': Pc)
    requires t < |s.threads| && s'.threads == s.threads
    requires Enabled(With(s, t, pc), t, c) && Step(With(s, t, pc), t, c) == With(s', t, pc')
    ensures Goes(s, t, pc, c, s', pc')
  {
    var next := Step(With(s, t, pc), t, c);
    assert [(t, c)][1..] == [];
    assert Leads(next, [], next);
  }

  lemma ThenGoing(s: State, t: nat, pc: Pc, x: seq<(nat, Choice)>, s1: State, pc1: Pc, c: Choice, s2: State, pc2: Pc)
    requires t < |s.threads| && s1.threads == s.threads == s2.threads
    requires Leads(With(s, t, pc), x, With(s1, t, pc1))
    requires Enabled(With(s1, t, pc1), t, c) && Step(With(s1, t, pc1), t, c) == With(s2, t, pc2)
    ensures Leads(With(s, t, pc), x + [(t, c)], With(s2, t, pc2))
  {
    hide Step, Enabled, Leads;
    Going(s1, t, pc1, c, s2, pc2);
    LeadsOn(With(s, t, pc), x, With(s1, t, pc1), [(t, c)], With(s2, t, pc2));
  }

  /** A goroutine that stands outside, while nobody has either lock. */
  ghost predicate Alone(s: State, t: nat) {
    t < |s.threads| && s.threads[t] == Idle && MayWrite(s.threads)
  }

  lemma StillAlone(s: State, t: nat, pc: Pc)
    requires Alone(s, t) && !Reads(pc) && !Writes(pc)
    ensures MayWrite(With(s, t, pc).threads) && MayRead(With(s, t, pc).threads) && With(s, t, Idle) == s
  {
  }

  /** What a goroutine turns to where its step leaves it no choice. */
  const LOOK := LookAgain

  /** The way of a goroutine that looks, takes the lock, dials, puts the connection in place and
      sets the flag. */
  function ToReconnect(t: nat): seq<(nat, Choice)> {
    [(t, LOOK), (t, LOOK), (t, LOOK), (t, LOOK)] + [(t, DialSucceeds), (t, LOOK), (t, LOOK), (t, LOOK)]
  }

  lemma GetsToDial(s: State, t: nat)
    requires Alone(s, t) && !s.active
    ensures Leads(With(s, t, Idle), [(t, LOOK), (t, LOOK), (t, LOOK), (t, LOOK)], With(s, t, Dialing))
  {
    hide Leads;
    StillAlone(s, t, Wanting);
    Going(s, t, Idle, LOOK, s, Looking);
    ThenGoing(s, t, Idle, [(t, LOOK)], s, Looking, LOOK, s, Wanting);
    assert [(t, LOOK)] + [(t, LOOK)] == [(t, LOOK), (t, LOOK)];
    ThenGoing(s, t, Idle, [(t, LOOK), (t, LOOK)], s, Wanting, LOOK, s, Checking);
    assert [(t, LOOK), (t, LOOK)] + [(t, LOOK)] == [(t, LOOK), (t, LOOK), (t, LOOK)];
    ThenGoing(s, t, Idle, [(t, LOOK), (t, LOOK), (t, LOOK)], s, Checking, LOOK, s, Dialing);
    assert [(t, LOOK), (t, LOOK), (t, LOOK)] + [(t, LOOK)] == [(t, LOOK), (t, LOOK), (t, LOOK), (t, LOOK)];
  }

  function Reconnected(s: State): State {
    s.(active := true, conn := Some(Conn(s.dials, s.address)), dials := s.dials + 1)
  }

  lemma DialsAndReplaces(s: State, t: nat)
    requires t < |s.threads|
    ensures Leads(With(s, t, Dialing), [(t, DialSucceeds), (t, LOOK), (t, LOOK), (t, LOOK)],
                  With(Reconnected(s), t, Idle))
  {
    hide Leads;
    var dialed := Conn(s.dials, s.address);
    var s1, s2, s3 := s.(dials := s.dials + 1), Reconnected(s).(active := s.active), Reconnected(s);
    Going(s, t, Dialing, DialSucceeds, s1, Replacing(dialed));
    ThenGoing(s, t, Dialing, [(t, DialSucceeds)], s1, Replacing(dialed), LOOK, s2, Activating);
    assert [(t, DialSucceeds)] + [(t, LOOK)] == [(t, DialSucceeds), (t, LOOK)];
    ThenGoing(s, t, Dialing, [(t, DialSucceeds), (t, LOOK)], s2, Activating, LOOK, s3, Releasing);
    assert [(t, DialSucceeds), (t, LOOK)] + [(t, LOOK)] == [(t, DialSucceeds), (t, LOOK), (t, LOOK)];
    ThenGoing(s, t, Dialing, [(t, DialSucceeds), (t, LOOK), (t, LOOK)], s3, Releasing, LOOK, s3, Idle);
    assert [(t, DialSucceeds), (t, LOOK), (t, LOOK)] + [(t, LOOK)]
        == [(t, DialSucceeds), (t, LOOK), (t, LOOK), (t, LOOK)];
  }

  /** A clear flag does not stay: a goroutine that looks while nobody has a lock puts a new
      connection to the current address in place, and sets the flag. */
  lemma Reconnects(s: State, t: nat)
    requires Alone(s, t) && !s.active
    ensures Leads(s, ToReconnect(t), Reconnected(s))
  {
    hide Leads;
    StillAlone(s, t, Idle);
    StillAlone(Reconnected(s), t, Idle);
    GetsToDial(s, t);
    DialsAndReplaces(s, t);
    LeadsOn(s, [(t, LOOK), (t, LOOK), (t, LOOK), (t, LOOK)], With(s, t, Dialing),
            [(t, DialSucceeds), (t, LOOK), (t, LOOK), (t, LOOK)], Reconnected(s));
  }

  /** A set one does: whoever looks goes away without dialing. */
  lemma LeavesAlone(s: State, t: nat)
    requires Alone(s, t) && s.active
    ensures Leads(s, [(t, LOOK), (t, LOOK)], s)
  {
    hide Leads;
    StillAlone(s, t, Idle);
    Going(s, t, Idle, LOOK, s, Looking);
    ThenGoing(s, t, Idle, [(t, LOOK)], s, Looking, LOOK, s, Idle);
    assert [(t, LOOK)] + [(t, LOOK)] == [(t, LOOK), (t, LOOK)];
  }

  function Redirected(s: State, to: Address): State {
    s.(address := to, active := false, outages := if s.active then s.outages + 1 else s.outages)
  }

  function ToRedirect(t: nat, to: Address): seq<(nat, Choice)> {
    [(t, Redirect(to)), (t, LOOK), (t, LOOK), (t, LOOK)]
  }

  /** A redirect leaves the new address and a clear flag. */
  lemma Redirects(s: State, t: nat, to: Address)
    requires Alone(s, t)
    ensures Leads(s, ToRedirect(t, to), Redirected(s, to))
  {
    hide Leads;
    var s1, s2 := s.(address := to), Redirected(s, to);
    StillAlone(s, t, Idle);
    StillAlone(s2, t, Idle);
    Going(s, t, Idle, Redirect(to), s, SettingAddress(to));
    ThenGoing(s, t, Idle, [(t, Redirect(to))], s, SettingAddress(to), LOOK, s1, ClearingFlag);
    assert [(t, Redirect(to))] + [(t, LOOK)] == [(t, Redirect(to)), (t, LOOK)];
    ThenGoing(s, t, Idle, [(t, Redirect(to)), (t, LOOK)], s1, ClearingFlag, LOOK, s2, Releasing);
    assert [(t, Redirect(to)), (t, LOOK)] + [(t, LOOK)] == [(t, Redirect(to)), (t, LOOK), (t, LOOK)];
    ThenGoing(s, t, Idle, [(t, Redirect(to)), (t, LOOK), (t, LOOK)], s2, Releasing, LOOK, s2, Idle);
    assert [(t, Redirect(to)), (t, LOOK), (t, LOOK)] + [(t, LOOK)] == ToRedirect(t, to);
  }

  function ToCall(t: nat, ending: Choice): seq<(nat, Choice)> {
    [(t, Invoke), (t, LOOK), (t, ending), (t, LOOK)] + (if ending == CallTimesOut then [(t, LOOK)] else [])
  }

  /** What a call leaves: it is on record with its connection, and the flag is clear if it timed
      out. */
  function Called(s: State, ending: Choice): State {
    var s' := s.(calls := s.calls + [(s.conn, s.address)]);
    if ending != CallTimesOut then s'
    else s'.(active := false, outages := s.outages + 1, marks := s.marks + [(s.conn, s.conn)])
  }

  lemma Calls(s: State, t: nat, ending: Choice)
    requires Alone(s, t) && s.active && (ending == CallEnds || ending == CallTimesOut)
    ensures Leads(s, ToCall(t, ending), Called(s, ending))
  {
    hide Leads;
    var s1, s2 := Called(s, CallEnds), Called(s, ending);
    StillAlone(s, t, Idle);
    StillAlone(s2, t, Idle);
    Going(s, t, Idle, Invoke, s, Testing);
    ThenGoing(s, t, Idle, [(t, Invoke)], s, Testing, LOOK, s1, Calling(s.conn));
    var two := [(t, Invoke), (t, LOOK)];
    assert [(t, Invoke)] + [(t, LOOK)] == two;
    var three := [(t, Invoke), (t, LOOK), (t, ending)];
    assert two + [(t, ending)] == three;
    var four := [(t, Invoke), (t, LOOK), (t, ending), (t, LOOK)];
    assert three + [(t, LOOK)] == four;
    if ending == CallEnds {
      ThenGoing(s, t, Idle, two, s1, Calling(s.conn), CallEnds, s1, Leaving);
      ThenGoing(s, t, Idle, three, s1, Leaving, LOOK, s1, Idle);
      assert ToCall(t, ending) == four;
    } else {
      ThenGoing(s, t, Idle, two, s1, Calling(s.conn), CallTimesOut, s1, TimedOut(s.conn));
      ThenGoing(s, t, Idle, three, s1, TimedOut(s.conn), LOOK, s2, Leaving);
      ThenGoing(s, t, Idle, four, s2, Leaving, LOOK, s2, Idle);
      assert ToCall(t, ending) == four + [(t, LOOK)];
    }
  }

  /** While the flag is clear nothing is called. */
  lemma DoesNotCall(s: State, t: nat)
    requires Alone(s, t) && !s.active
    ensures Leads(s, [(t, Invoke), (t, LOOK), (t, LOOK)], s)
  {
    hide Leads;
    StillAlone(s, t, Idle);
    Going(s, t, Idle, Invoke, s, Testing);
    ThenGoing(s, t, Idle, [(t, Invoke)], s, Testing, LOOK, s, Leaving);
    assert [(t, Invoke)] + [(t, LOOK)] == [(t, Invoke), (t, LOOK)];
    ThenGoing(s, t, Idle, [(t, Invoke), (t, LOOK)], s, Leaving, LOOK, s, Idle);
    assert [(t, Invoke), (t, LOOK)] + [(t, LOOK)] == [(t, Invoke), (t, LOOK), (t, LOOK)];
  }

  /** A redirect, the reconnecting after it, and a call: from any state with nobody in a lock, the
      call goes through a new connection dialed to the address of the redirect. */
  lemma CallsWhereRedirected(s: State, t: nat, to: Address)
    requires Alone(s, t)
    ensures var s' := Called(Reconnected(Redirected(s, to)), CallEnds);
      && Leads(s, ToRedirect(t, to) + ToReconnect(t) + ToCall(t, CallEnds), s')
      && s'.calls == s.calls + [(Some(Conn(s.dials, to)), to)]
  {
    hide Leads, ToRedirect, ToReconnect, ToCall;
    var s1 := Redirected(s, to);
    var s2 := Reconnected(s1);
    Redirects(s, t, to);
    Reconnects(s1, t);
    Calls(s2, t, CallEnds);
    LeadsOn(s, ToRedirect(t, to), s1, ToReconnect(t), s2);
    LeadsOn(s, ToRedirect(t, to) + ToReconnect(t), s2, ToCall(t, CallEnds), Called(s2, CallEnds));
  }
}
