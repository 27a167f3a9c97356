/** The graph of events a trace emits, as a state machine over the calls on its spans. */
module TraceGraph {
  import opened Common
  import opened EventArgs

  datatype Label = Entry | Exit | Info | Error

  /** A prepared event: owner is the index of its span, which an entry that could not be
      queued does not get; asked are the op IDs of the Edge keys that the caller's arguments stand
      for, and edges those of the keys that are added after them; paired is false for an exit
      whose callers' arguments were odd in number, and queued is when the message queue was full. */
  datatype Event = Event(md: Metadata, kind: Label, owner: Option<nat>, asked: seq<OpId>, edges: seq<OpId>,
                         paired: bool, queued: bool)

  datatype Span = Span(parent: Option<nat>, ctx: Metadata, childEdges: seq<Metadata>, endArgs: seq<Arg>, ended: bool)

  /** exitEvent is the op ID reserved for the exit of the trace, if it was asked for; used are
      all op IDs drawn so far. Span 0 is the trace itself. */
  datatype Trace = Trace(spans: seq<Span>, events: seq<Event>, exitEvent: Option<OpId>, used: set<OpId>)

  /** What becomes of an event: queued; prepared but dropped; or refused before it is prepared,
      because it could not be made, or because of an argument that is not a key. */
  datatype Outcome = Queued | Dropped | Refused

  datatype Call =
    | BeginSpan(parent: nat, name: string, args: seq<Arg>, op: OpId, outcome: Outcome)
    | Report(span: nat, kind: Label, args: seq<Arg>, op: OpId, outcome: Outcome)
    | End(span: nat, args: seq<Arg>, op: OpId, outcome: Outcome)
    | AddEndArgs(span: nat, args: seq<Arg>)
    | ExitMetadata(op: OpId)

  /** An event is refused for its arguments, whatever else would become of it. */
  function Judged(task: TaskId, args: seq<Arg>, outcome: Outcome): Outcome {
    if EdgesOf(task, args).None? then Refused else outcome
  }

  /** The edges of an event: those asked for, those added for children, and whether the
      arguments in front of the latter come in pairs. */
  datatype Links = Links(asked: seq<OpId>, own: seq<OpId>, paired: bool)

  function Asked(task: TaskId, args: seq<Arg>): seq<OpId> {
    match EdgesOf(task, args)
    case None => []
    case Some(ops) => ops
  }

  function Plain(task: TaskId, args: seq<Arg>): Links {
    Links(Asked(task, args), [], true)
  }

  /** A context whose event was prepared moves on to that event. */
  function Advanced(ctx: Metadata, op: OpId, outcome: Outcome): Metadata {
    if outcome == Refused || ctx.op == op then ctx else ctx.(op := op)
  }

  /** The event of a call that prepares one; it gets an edge to the context it is reported on. */
  function NewEvent(ctx: Metadata, op: OpId, kind: Label, owner: Option<nat>, links: Links, outcome: Outcome): Event {
    Event(Metadata(ctx.task, op), kind, owner, links.asked, links.own + [ctx.op], links.paired, outcome == Queued)
  }

  function Emitted(events: seq<Event>, ctx: Metadata, op: OpId, kind: Label, owner: Option<nat>, links: Links,
                   outcome: Outcome): seq<Event>
  {
    if outcome == Refused || ctx.op == op then events else events + [NewEvent(ctx, op, kind, owner, links, outcome)]
  }

  /** A new sampled trace whose root entry event has been queued. */
  function NewTrace(task: TaskId, first: OpId, op: OpId): Trace {
    Trace([Span(None, Metadata(task, op), [], [], false)],
          [Event(Metadata(task, op), Entry, Some(0), [], [], true, true)], None, {first, op})
  }

  predicate Allowed(t: Trace, c: Call) {
    && (!c.AddEndArgs? ==> c.op !in t.used)
    && match c
       case BeginSpan(parent, _, _, _, _) => parent < |t.spans|
       case Report(span, kind, _, _, _) => span < |t.spans| && kind in {Info, Error}
       case End(span, _, _, _) => span < |t.spans|
       case AddEndArgs(span, _) => span < |t.spans|
       case ExitMetadata(_) => true
  }

  predicate ParentsFirst(spans: seq<Span>) {
    && |spans| > 0 && spans[0].parent == None
    && forall i | 0 < i < |spans| :: spans[i].parent.Some? && spans[i].parent.value < i
  }

  function Begun(t: Trace, parent: nat, name: string, args: seq<Arg>, op: OpId, outcome: Outcome): Trace
    requires parent < |t.spans|
  {
    var p := t.spans[parent];
    if p.ended || name == "" then t
    else
      var outcome := Judged(p.ctx.task, args, outcome);
      var owner := if outcome == Queued then Some(|t.spans|) else None;
      var child := Span(Some(parent), Advanced(p.ctx, op, outcome), [], [], false);
      Trace(if outcome == Queued then t.spans + [child] else t.spans,
            Emitted(t.events, p.ctx, op, Entry, owner, Plain(p.ctx.task, args), outcome), t.exitEvent, t.used + {op})
  }

  function Noted(t: Trace, span: nat, kind: Label, args: seq<Arg>, op: OpId, outcome: Outcome): Trace
    requires span < |t.spans|
  {
    var s := t.spans[span];
    if s.ended then t
    else
      var outcome := Judged(s.ctx.task, args, outcome);
      Trace(t.spans[span := s.(ctx := Advanced(s.ctx, op, outcome))],
            Emitted(t.events, s.ctx, op, kind, Some(span), Plain(s.ctx.task, args), outcome),
            t.exitEvent, t.used + {op})
  }

  function WithEndArgs(t: Trace, span: nat, args: seq<Arg>): Trace
    requires span < |t.spans|
  {
    var s := t.spans[span];
    if s.ended then t else t.(spans := t.spans[span := s.(endArgs := s.endArgs + Trimmed(args))])
  }

  /** The exit of the trace itself uses the reserved op ID, if there is one. */
  function ExitOp(t: Trace, span: nat, op: OpId): OpId {
    if span == 0 && t.exitEvent.Some? then t.exitEvent.value else op
  }

  function SpansAfterEnd(spans: seq<Span>, span: nat, op: OpId, outcome: Outcome): seq<Span>
    requires span < |spans| && ParentsFirst(spans)
  {
    var s := spans[span];
    var s' := s.(ctx := Advanced(s.ctx, op, outcome), childEdges := [], endArgs := [], ended := true);
    if s.parent.Some? && !spans[s.parent.value].ended then
      var p := spans[s.parent.value];
      spans[span := s'][s.parent.value := p.(childEdges := p.childEdges + [s'.ctx])]
    else spans[span := s']
  }

  /** The arguments that come from callers when a span ends. Those of a trace are cut to an even
      number first, those of any other span are not. */
  function CallersArgs(s: Span, span: nat, args: seq<Arg>): seq<Arg> {
    if span == 0 then s.endArgs + Trimmed(args) else args + s.endArgs
  }

  /** All arguments of an exit. */
  function ExitArgs(s: Span, span: nat, args: seq<Arg>): seq<Arg> {
    CallersArgs(s, span, args) + EdgeArgs(s.childEdges)
  }

  /** What they are read as: edges to children are lost when the callers' arguments are odd. */
  function ExitLinks(s: Span, span: nat, args: seq<Arg>): Links {
    var callers := CallersArgs(s, span, args);
    var paired := |callers| % 2 == 0;
    Links(Asked(s.ctx.task, callers), if paired then SameTask(s.ctx.task, s.childEdges) else [], paired)
  }

  function Ended(t: Trace, span: nat, args: seq<Arg>, op: OpId, outcome: Outcome): Trace
    requires span < |t.spans| && ParentsFirst(t.spans)
  {
    var s := t.spans[span];
    if s.ended then t
    else
      var op := ExitOp(t, span, op);
      var outcome := Judged(s.ctx.task, ExitArgs(s, span, args), outcome);
      Trace(SpansAfterEnd(t.spans, span, op, outcome),
            Emitted(t.events, s.ctx, op, Exit, Some(span), ExitLinks(s, span, args), outcome),
            t.exitEvent, t.used + {op})
  }

  /** Arguments that are added before the trace ends are those it is ended with. */
  lemma TrimmedFirst(s: Span, args: seq<Arg>)
    ensures var s' := s.(endArgs := s.endArgs + Trimmed(args));
      ExitArgs(s', 0, []) == ExitArgs(s, 0, args) && ExitLinks(s', 0, []) == ExitLinks(s, 0, args)
  {
    assert (s.endArgs + Trimmed(args)) + [] == s.endArgs + Trimmed(args);
  }

  lemma EndedAfterArgs(t: Trace, args: seq<Arg>, op: OpId, outcome: Outcome)
    requires |t.spans| > 0 && ParentsFirst(t.spans) && !t.spans[0].ended
    ensures ParentsFirst(WithEndArgs(t, 0, args).spans)
    ensures Ended(WithEndArgs(t, 0, args), 0, [], op, outcome) == Ended(t, 0, args, op, outcome)
  {
    hide ExitArgs, ExitLinks, Judged, Trimmed, Emitted;
    var s, t', op' := t.spans[0], WithEndArgs(t, 0, args), ExitOp(t, 0, op);
    TrimmedFirst(s, args);
    assert t'.spans[0] == s.(endArgs := s.endArgs + Trimmed(args));
    assert forall o: Outcome :: SpansAfterEnd(t'.spans, 0, op', o) == SpansAfterEnd(t.spans, 0, op', o);
  }

  lemma EndedTwice(t: Trace, span: nat, args: seq<Arg>, op: OpId, outcome: Outcome)
    requires span < |t.spans| && ParentsFirst(t.spans) && t.spans[span].ended
    ensures Ended(t, span, args, op, outcome) == t
  {
  }

  function Step(t: Trace, c: Call): Trace
    requires Allowed(t, c) && ParentsFirst(t.spans)
  {
    match c
    case BeginSpan(parent, name, args, op, outcome) => Begun(t, parent, name, args, op, outcome)
    case Report(span, kind, args, op, outcome) => Noted(t, span, kind, args, op, outcome)
    case End(span, args, op, outcome) => Ended(t, span, args, op, outcome)
    case AddEndArgs(span, args) => WithEndArgs(t, span, args)
    case ExitMetadata(op) => if t.exitEvent.Some? then t else t.(exitEvent := Some(op), used := t.used + {op})
  }

  // ---------------------------------------------------------------- invariants

  predicate HasOp(events: seq<Event>, o: OpId) {
    exists j :: 0 <= j < |events| && events[j].md.op == o
  }

  /** Every event but the root entry has edges, all of them to earlier events, and no two
      events share an op ID. */
  ghost predicate Linked(events: seq<Event>) {
    && |events| > 0 && events[0].edges == [] && events[0].kind == Entry && events[0].owner == Some(0)
    && (forall i | 0 < i < |events| :: events[i].edges != [])
    && (forall i, o | 0 < i < |events| && o in events[i].edges :: HasOp(events[..i], o))
    && (forall i, j | 0 <= i < j < |events| :: events[i].md.op != events[j].md.op)
    && (forall i | 0 <= i < |events| :: events[i].md.task == events[0].md.task)
  }

  /** Contexts and remembered child edges point at events of the trace. */
  ghost predicate Attached(events: seq<Event>, s: Span) {
    && |events| > 0 && s.ctx.task == events[0].md.task && HasOp(events, s.ctx.op)
    && forall m | m in s.childEdges :: m.task == events[0].md.task && HasOp(events, m.op)
  }

  ghost predicate AllAttached(events: seq<Event>, spans: seq<Span>) {
    forall k | 0 <= k < |spans| :: Attached(events, spans[k])
  }

  /** Drawn op IDs cover those of the events; the reserved one is not yet an event's. */
  ghost predicate Drawn(events: seq<Event>, exitEvent: Option<OpId>, done: bool, used: set<OpId>) {
    && (forall i | 0 <= i < |events| :: events[i].md.op in used)
    && (exitEvent.Some? ==> exitEvent.value in used && (done || !HasOp(events, exitEvent.value)))
  }

  predicate Marks(e: Event, kind: Label, k: nat) {
    e.kind == kind && e.owner == Some(k)
  }

  predicate HasMark(events: seq<Event>, kind: Label, k: nat) {
    exists i :: 0 <= i < |events| && Marks(events[i], kind, k)
  }

  /** Each span has one entry, and at most one exit, which it has only once it is ended. */
  ghost predicate Paired(events: seq<Event>, spans: seq<Span>) {
    && (forall i | 0 <= i < |events| && events[i].owner.Some? :: events[i].owner.value < |spans|)
    && (forall i | 0 <= i < |events| && events[i].owner == None :: events[i].kind == Entry)
    && (forall k: nat | k < |spans| :: HasMark(events, Entry, k))
    && (forall i: nat, j: nat, k: nat | i < j < |events| && Marks(events[i], Entry, k) :: !Marks(events[j], Entry, k))
    && (forall i: nat, j: nat, k: nat | i < j < |events| && Marks(events[i], Exit, k) :: !Marks(events[j], Exit, k))
    && (forall i: nat, k: nat | i < |events| && k < |spans| && Marks(events[i], Exit, k) :: spans[k].ended)
  }

  /** e is the exit of a child of span p. */
  predicate ChildExit(e: Event, spans: seq<Span>, p: nat) {
    && e.kind == Exit && e.owner.Some? && e.owner.value < |spans|
    && spans[e.owner.value].parent == Some(p)
  }

  /** A span remembers the exits of its children until it ends, and its own exit then has an
      edge to each of them, if its callers' arguments came in pairs. */
  ghost predicate Joined(events: seq<Event>, spans: seq<Span>) {
    && (forall j: nat, p: nat | j < |events| && p < |spans| && ChildExit(events[j], spans, p) && !spans[p].ended ::
          events[j].md in spans[p].childEdges)
    && (forall i: nat, j: nat, p: nat |
          j < i < |events| && ChildExit(events[j], spans, p) && Marks(events[i], Exit, p) && events[i].paired ::
          events[j].md.op in events[i].edges)
  }

  ghost predicate Inv(t: Trace) {
    && ParentsFirst(t.spans) && Linked(t.events) && AllAttached(t.events, t.spans)
    && Drawn(t.events, t.exitEvent, t.spans[0].ended, t.used)
    && Paired(t.events, t.spans) && Joined(t.events, t.spans)
  }

  // ---------------------------------------------------------------- every step keeps them

  lemma HasOpLonger(events: seq<Event>, e: Event, o: OpId)
    ensures HasOp(events + [e], o) <==> HasOp(events, o) || e.md.op == o
  {
    if HasOp(events, o) {
      var j :| 0 <= j < |events| && events[j].md.op == o;
      assert (events + [e])[j].md.op == o;
    }
    assert (events + [e])[|events|] == e;
  }

  lemma HasMarkLonger(events: seq<Event>, e: Event, kind: Label, k: nat)
    ensures HasMark(events + [e], kind, k) <==> HasMark(events, kind, k) || Marks(e, kind, k)
  {
    if HasMark(events, kind, k) {
      var j :| 0 <= j < |events| && Marks(events[j], kind, k);
      assert Marks((events + [e])[j], kind, k);
    }
    assert (events + [e])[|events|] == e;
  }

  lemma LinkedLonger(events: seq<Event>, e: Event)
    requires Linked(events) && e.edges != [] && (forall o | o in e.edges :: HasOp(events, o))
    requires !HasOp(events, e.md.op) && e.md.task == events[0].md.task
    ensures Linked(events + [e])
  {
    var longer := events + [e];
    forall i, o | 0 < i < |longer| && o in longer[i].edges ensures HasOp(longer[..i], o) {
      assert longer[..i] == events[..i];
      assert events[..|events|] == events;
    }
  }

  lemma AttachedLonger(events: seq<Event>, e: Event, s: Span)
    requires Attached(events, s)
    ensures Attached(events + [e], s)
  {
    HasOpLonger(events, e, s.ctx.op);
    forall m | m in s.childEdges ensures HasOp(events + [e], m.op) { HasOpLonger(events, e, m.op); }
  }

  /** Reporting on the context of a span keeps the events linked and every span attached. */
  lemma EmitKeeps(events: seq<Event>, spans: seq<Span>, k: nat, op: OpId, kind: Label, owner: Option<nat>, links: Links,
                  outcome: Outcome)
    requires Linked(events) && AllAttached(events, spans) && !HasOp(events, op) && k < |spans|
    requires forall o | o in links.own :: HasOp(events, o)
    ensures var s := spans[k]; var events' := Emitted(events, s.ctx, op, kind, owner, links, outcome);
      && Linked(events') && AllAttached(events', spans)
      && Attached(events', s.(ctx := Advanced(s.ctx, op, outcome)))
      && events' == if outcome == Refused then events else events + [NewEvent(s.ctx, op, kind, owner, links, outcome)]
  {
    var s := spans[k];
    assert Attached(events, s);
    if outcome != Refused {
      var e := NewEvent(s.ctx, op, kind, owner, links, outcome);
      LinkedLonger(events, e);
      HasOpLonger(events, e, op);
      forall i | 0 <= i < |spans| ensures Attached(events + [e], spans[i]) { AttachedLonger(events, e, spans[i]); }
    }
  }

  lemma DrawnLonger(events: seq<Event>, exitEvent: Option<OpId>, done: bool, used: set<OpId>, e: Event, done': bool)
    requires Drawn(events, exitEvent, done, used) && (done ==> done')
    requires exitEvent == Some(e.md.op) ==> done'
    ensures Drawn(events + [e], exitEvent, done', used + {e.md.op})
  {
    if exitEvent.Some? { HasOpLonger(events, e, exitEvent.value); }
  }

  ghost predicate SameFamily(spans: seq<Span>, spans': seq<Span>) {
    && |spans| <= |spans'|
    && forall k | 0 <= k < |spans| :: spans'[k].parent == spans[k].parent && (spans[k].ended ==> spans'[k].ended)
  }

  lemma PairedLonger(events: seq<Event>, spans: seq<Span>, e: Event, spans': seq<Span>)
    requires Paired(events, spans) && SameFamily(spans, spans')
    requires e.owner == None ==> e.kind == Entry
    requires e.owner.Some? ==> e.owner.value < |spans'|
    requires e.owner.Some? && e.kind == Exit ==>
      e.owner.value < |spans| && !spans[e.owner.value].ended && spans'[e.owner.value].ended
    requires e.owner.Some? && e.kind == Entry ==> e.owner.value == |spans|
    requires |spans'| == |spans| || (|spans'| == |spans| + 1 && Marks(e, Entry, |spans|))
    ensures Paired(events + [e], spans')
  {
    forall k: nat | k < |spans'| ensures HasMark(events + [e], Entry, k) { HasMarkLonger(events, e, Entry, k); }
  }

  /** Other events than exits leave what spans remember as it is. */
  lemma JoinedLonger(events: seq<Event>, spans: seq<Span>, e: Event, spans': seq<Span>)
    requires Paired(events, spans) && Joined(events, spans) && SameFamily(spans, spans') && e.kind != Exit
    requires forall k | 0 <= k < |spans| ::
      spans'[k].ended == spans[k].ended && spans'[k].childEdges == spans[k].childEdges
    requires ParentsFirst(spans')
    ensures Joined(events + [e], spans')
  {
    forall j: nat, p: nat | j < |events| && p < |spans'| && ChildExit(events[j], spans', p)
      ensures ChildExit(events[j], spans, p) && p < |spans|
    {
    }
  }

  lemma UsedGrows(events: seq<Event>, exitEvent: Option<OpId>, done: bool, used: set<OpId>, op: OpId)
    requires Drawn(events, exitEvent, done, used)
    ensures Drawn(events, exitEvent, done, used + {op})
  {
  }

  /** A fresh op ID is that of no event, and not the reserved one. */
  lemma FreshOp(t: Trace, span: nat, op: OpId)
    requires Inv(t) && span < |t.spans| && op !in t.used
    ensures !HasOp(t.events, op) && t.exitEvent != Some(op) && t.spans[span].ctx.op != op
  {
    assert Attached(t.events, t.spans[span]);
  }

  lemma PlainOwn(task: TaskId, args: seq<Arg>)
    ensures Plain(task, args).own == [] && Plain(task, args).paired
  {
  }

  lemma ChildAttached(events: seq<Event>, spans: seq<Span>, s: Span, child: Span)
    requires AllAttached(events, spans) && Attached(events, s) && child.ctx == s.ctx && child.childEdges == []
    ensures AllAttached(events, spans + [child])
  {
  }

  lemma BeginKeeps(t: Trace, parent: nat, name: string, args: seq<Arg>, op: OpId, outcome: Outcome)
    requires Inv(t) && parent < |t.spans| && op !in t.used
    ensures Inv(Begun(t, parent, name, args, op, outcome))
  {
    hide Linked, Paired, Joined, Drawn, Attached, AllAttached, HasOp, Judged, Plain;
    var p, t' := t.spans[parent], Begun(t, parent, name, args, op, outcome);
    if !p.ended && name != "" {
      var outcome, links := Judged(p.ctx.task, args, outcome), Plain(p.ctx.task, args);
      var owner := if outcome == Queued then Some(|t.spans|) else None;
      FreshOp(t, parent, op);
      PlainOwn(p.ctx.task, args);
      EmitKeeps(t.events, t.spans, parent, op, Entry, owner, links, outcome);
      if outcome != Refused {
        var e := NewEvent(p.ctx, op, Entry, owner, links, outcome);
        DrawnLonger(t.events, t.exitEvent, t.spans[0].ended, t.used, e, t.spans[0].ended);
        PairedLonger(t.events, t.spans, e, t'.spans);
        JoinedLonger(t.events, t.spans, e, t'.spans);
        if outcome == Queued {
          ChildAttached(t'.events, t.spans, p.(ctx := Advanced(p.ctx, op, outcome)), t'.spans[|t.spans|]);
        }
      } else {
        UsedGrows(t.events, t.exitEvent, t.spans[0].ended, t.used, op);
      }
    }
  }

  lemma ChangeAttached(events: seq<Event>, spans: seq<Span>, k: nat, s: Span)
    requires AllAttached(events, spans) && Attached(events, s) && k < |spans|
    ensures AllAttached(events, spans[k := s])
  {
  }

  lemma NoteKeeps(t: Trace, span: nat, kind: Label, args: seq<Arg>, op: OpId, outcome: Outcome)
    requires Inv(t) && span < |t.spans| && op !in t.used && kind in {Info, Error}
    ensures Inv(Noted(t, span, kind, args, op, outcome))
  {
    hide Linked, Paired, Joined, Drawn, Attached, AllAttached, HasOp, Judged, Plain;
    var s, t' := t.spans[span], Noted(t, span, kind, args, op, outcome);
    if !s.ended {
      var outcome, links := Judged(s.ctx.task, args, outcome), Plain(s.ctx.task, args);
      FreshOp(t, span, op);
      PlainOwn(s.ctx.task, args);
      EmitKeeps(t.events, t.spans, span, op, kind, Some(span), links, outcome);
      ChangeAttached(t'.events, t.spans, span, t'.spans[span]);
      if outcome != Refused {
        var e := NewEvent(s.ctx, op, kind, Some(span), links, outcome);
        DrawnLonger(t.events, t.exitEvent, t.spans[0].ended, t.used, e, t.spans[0].ended);
        PairedLonger(t.events, t.spans, e, t'.spans);
        JoinedLonger(t.events, t.spans, e, t'.spans);
      } else {
        assert t'.spans == t.spans;
        UsedGrows(t.events, t.exitEvent, t.spans[0].ended, t.used, op);
      }
    }
  }

  lemma JoinedStays(events: seq<Event>, spans: seq<Span>, spans': seq<Span>)
    requires Joined(events, spans) && SameFamily(spans, spans') && |spans'| == |spans|
    requires forall k | 0 <= k < |spans| :: spans'[k].childEdges == spans[k].childEdges
    ensures Joined(events, spans')
  {
    forall j: nat, p: nat | j < |events| && p < |spans'| && ChildExit(events[j], spans', p)
      ensures ChildExit(events[j], spans, p)
    {
    }
  }

  lemma PairedQuietly(events: seq<Event>, spans: seq<Span>, spans': seq<Span>)
    requires Paired(events, spans) && SameFamily(spans, spans') && |spans'| == |spans|
    ensures Paired(events, spans')
  {
  }

  lemma EndArgsKeeps(t: Trace, span: nat, args: seq<Arg>)
    requires Inv(t) && span < |t.spans|
    ensures Inv(WithEndArgs(t, span, args))
  {
    hide Trimmed;
    var t' := WithEndArgs(t, span, args);
    forall k | 0 <= k < |t.spans| ensures Attached(t.events, t'.spans[k]) { assert Attached(t.events, t.spans[k]); }
    PairedQuietly(t.events, t.spans, t'.spans);
    JoinedStays(t.events, t.spans, t'.spans);
  }

  /** The exit of a span joins the exits of its children when its callers' arguments come in
      pairs, and is remembered by its parent. */
  lemma JoinedAtEnd(events: seq<Event>, spans: seq<Span>, span: nat, args: seq<Arg>, op: OpId, outcome: Outcome)
    requires Linked(events) && AllAttached(events, spans) && Paired(events, spans) && Joined(events, spans)
    requires ParentsFirst(spans) && span < |spans| && !spans[span].ended
    requires outcome != Refused && spans[span].ctx.op != op
    ensures var s := spans[span];
      var e := NewEvent(s.ctx, op, Exit, Some(span), ExitLinks(s, span, args), outcome);
      Joined(events + [e], SpansAfterEnd(spans, span, op, outcome))
  {
    hide Linked, CallersArgs, Asked;
    var s, spans' := spans[span], SpansAfterEnd(spans, span, op, outcome);
    var e := NewEvent(s.ctx, op, Exit, Some(span), ExitLinks(s, span, args), outcome);
    var events' := events + [e];
    forall j: nat, p: nat | j < |events'| && p < |spans'| && ChildExit(events'[j], spans', p)
      ensures ChildExit(events'[j], spans, p)
      ensures !spans'[p].ended ==> events'[j].md in spans'[p].childEdges
    {
      if j < |events| { assert ChildExit(events[j], spans, p); }
    }
    forall i: nat, j: nat, p: nat |
        j < i < |events'| && ChildExit(events'[j], spans', p) && Marks(events'[i], Exit, p) && events'[i].paired
      ensures events'[j].md.op in events'[i].edges
    {
      assert ChildExit(events[j], spans, p);
      if i == |events| { assert Attached(events, s); assert events[j].md in s.childEdges; }
    }
  }

  lemma JoinedQuietly(events: seq<Event>, spans: seq<Span>, span: nat, op: OpId)
    requires Joined(events, spans) && ParentsFirst(spans) && span < |spans|
    ensures Joined(events, SpansAfterEnd(spans, span, op, Refused))
  {
    var spans' := SpansAfterEnd(spans, span, op, Refused);
    forall j: nat, p: nat | j < |events| && p < |spans'| && ChildExit(events[j], spans', p)
      ensures ChildExit(events[j], spans, p)
    {
    }
  }

  lemma AttachedAtEnd(events: seq<Event>, spans: seq<Span>, span: nat, op: OpId, outcome: Outcome)
    requires AllAttached(events, spans) && ParentsFirst(spans) && span < |spans|
    requires Attached(events, spans[span].(ctx := Advanced(spans[span].ctx, op, outcome)))
    ensures AllAttached(events, SpansAfterEnd(spans, span, op, outcome))
  {
    var spans' := SpansAfterEnd(spans, span, op, outcome);
    forall k | 0 <= k < |spans'| ensures Attached(events, spans'[k]) {
      assert Attached(events, spans[k]);
    }
  }

  lemma ExitOpIsNew(t: Trace, span: nat, op: OpId)
    requires Inv(t) && span < |t.spans| && !t.spans[span].ended && op !in t.used
    ensures var op' := ExitOp(t, span, op);
      !HasOp(t.events, op') && (t.exitEvent == Some(op') ==> span == 0) && t.spans[span].ctx.op != op'
  {
    assert Attached(t.events, t.spans[span]);
  }

  /** Ending a span changes only its own record and what its parent remembers. */
  lemma EndFamily(spans: seq<Span>, span: nat, op: OpId, outcome: Outcome)
    requires ParentsFirst(spans) && span < |spans|
    ensures var spans' := SpansAfterEnd(spans, span, op, outcome);
      && ParentsFirst(spans') && |spans'| == |spans| && SameFamily(spans, spans') && spans'[span].ended
      && forall k | 0 <= k < |spans| && k != span :: spans'[k].ended == spans[k].ended
  {
  }

  /** An exit refused before it is prepared leaves the span ended without an exit event. */
  lemma EndRefusedKeeps(t: Trace, span: nat, args: seq<Arg>, op: OpId, outcome: Outcome)
    requires Inv(t) && span < |t.spans| && op !in t.used && !t.spans[span].ended
    requires Judged(t.spans[span].ctx.task, ExitArgs(t.spans[span], span, args), outcome) == Refused
    ensures Inv(Ended(t, span, args, op, outcome))
  {
    hide Judged, ExitArgs, ExitLinks;
    var s, op', t' := t.spans[span], ExitOp(t, span, op), Ended(t, span, args, op, outcome);
    assert Attached(t.events, s);
    EndFamily(t.spans, span, op', Refused);
    AttachedAtEnd(t.events, t.spans, span, op', Refused);
    PairedQuietly(t.events, t.spans, t'.spans);
    JoinedQuietly(t.events, t.spans, span, op');
  }

  lemma ExitLinksAre(s: Span, span: nat, args: seq<Arg>)
    ensures forall o | o in ExitLinks(s, span, args).own :: Metadata(s.ctx.task, o) in s.childEdges
  {
  }

  lemma EndPreparedKeeps(t: Trace, span: nat, args: seq<Arg>, op: OpId, outcome: Outcome)
    requires Inv(t) && span < |t.spans| && op !in t.used && !t.spans[span].ended
    requires Judged(t.spans[span].ctx.task, ExitArgs(t.spans[span], span, args), outcome) != Refused
    ensures Inv(Ended(t, span, args, op, outcome))
  {
    hide Judged, ExitArgs, ExitLinks, Paired, Joined, Drawn, Linked;
    var s, op', t' := t.spans[span], ExitOp(t, span, op), Ended(t, span, args, op, outcome);
    var links, outcome := ExitLinks(s, span, args), Judged(s.ctx.task, ExitArgs(s, span, args), outcome);
    var e := NewEvent(s.ctx, op', Exit, Some(span), links, outcome);
    ExitOpIsNew(t, span, op);
    EndFamily(t.spans, span, op', outcome);
    assert Attached(t.events, s);
    ExitLinksAre(s, span, args);
    EmitKeeps(t.events, t.spans, span, op', Exit, Some(span), links, outcome);
    AttachedAtEnd(t'.events, t.spans, span, op', outcome);
    DrawnLonger(t.events, t.exitEvent, t.spans[0].ended, t.used, e, t'.spans[0].ended);
    PairedLonger(t.events, t.spans, e, t'.spans);
    JoinedAtEnd(t.events, t.spans, span, args, op', outcome);
  }

  lemma EndKeeps(t: Trace, span: nat, args: seq<Arg>, op: OpId, outcome: Outcome)
    requires Inv(t) && span < |t.spans| && op !in t.used
    ensures Inv(Ended(t, span, args, op, outcome))
  {
    var s := t.spans[span];
    if !s.ended {
      if Judged(s.ctx.task, ExitArgs(s, span, args), outcome) == Refused {
        EndRefusedKeeps(t, span, args, op, outcome);
      } else {
        EndPreparedKeeps(t, span, args, op, outcome);
      }
    }
  }

  lemma StepKeeps(t: Trace, c: Call)
    requires Inv(t) && Allowed(t, c)
    ensures Inv(Step(t, c))
  {
    match c {
      case BeginSpan(parent, name, args, op, outcome) => BeginKeeps(t, parent, name, args, op, outcome);
      case Report(span, kind, args, op, outcome) => NoteKeeps(t, span, kind, args, op, outcome);
      case End(span, args, op, outcome) => EndKeeps(t, span, args, op, outcome);
      case AddEndArgs(span, args) => EndArgsKeeps(t, span, args);
      case ExitMetadata(op) =>
    }
  }

  // ---------------------------------------------------------------- whole runs

  /** t' is reached from t by the calls, each with a fresh op ID. */
  ghost predicate Leads(t: Trace, calls: seq<Call>, t': Trace)
    decreases |calls|
  {
    if calls == [] then t' == t
    else ParentsFirst(t.spans) && Allowed(t, calls[0]) && Leads(Step(t, calls[0]), calls[1..], t')
  }

  lemma {:induction false} RunKeeps(t: Trace, calls: seq<Call>, t': Trace)
    requires Inv(t) && Leads(t, calls, t')
    ensures Inv(t')
    decreases |calls|
  {
    if calls == [] {
    } else {
      StepKeeps(t, calls[0]);
      RunKeeps(Step(t, calls[0]), calls[1..], t');
    }
  }

  lemma NewTraceInv(task: TaskId, first: OpId, op: OpId)
    ensures Inv(NewTrace(task, first, op))
  {
    var t := NewTrace(task, first, op);
    assert Marks(t.events[0], Entry, 0);
    assert t.events[0].md.op == op;
  }

  /** A chain of edges from event i down to the root entry. */
  ghost predicate PathToRoot(events: seq<Event>, i: nat, path: seq<nat>) {
    && |path| > 0 && path[0] == i && path[|path| - 1] == 0
    && (forall k | 0 <= k < |path| :: path[k] < |events|)
    && (forall k | 0 <= k < |path| - 1 ::
          path[k + 1] < path[k] && events[path[k + 1]].md.op in events[path[k]].edges)
  }

  ghost predicate LeadsToRoot(events: seq<Event>, i: nat) {
    exists path :: PathToRoot(events, i, path)
  }

  lemma {:induction false} ReachesRoot(events: seq<Event>, i: nat) returns (path: seq<nat>)
    requires Linked(events) && i < |events|
    ensures PathToRoot(events, i, path)
  {
    if i == 0 {
      path := [0];
    } else {
      var o := events[i].edges[0];
      assert o in events[i].edges && HasOp(events[..i], o);
      var j :| 0 <= j < i && events[..i][j].md.op == o;
      var rest := ReachesRoot(events, j);
      path := [i] + rest;
    }
  }

  // ---------------------------------------------------------------- exits that join nothing

  /** There is an event of span k with that op ID. */
  ghost predicate OwnedOp(events: seq<Event>, k: nat, o: OpId) {
    exists j :: 0 <= j < |events| && events[j].md.op == o && events[j].owner == Some(k)
  }

  ghost predicate OfChild(events: seq<Event>, spans: seq<Span>, k: nat, o: OpId) {
    exists c: nat :: c < |spans| && spans[c].parent == Some(k) && OwnedOp(events, c, o)
  }

  /** Contexts are at events of their own span, what is remembered are events of children, and
      arguments kept for the end come in pairs. */
  ghost predicate OwnSpan(events: seq<Event>, spans: seq<Span>, k: nat)
    requires k < |spans|
  {
    && OwnedOp(events, k, spans[k].ctx.op) && |spans[k].endArgs| % 2 == 0
    && forall m | m in spans[k].childEdges :: OfChild(events, spans, k, m.op)
  }

  ghost predicate OwnSpans(events: seq<Event>, spans: seq<Span>) {
    forall k: nat | k < |spans| :: OwnSpan(events, spans, k)
  }

  /** Only the exit of a span that is not the trace can be left unpaired, and it has one edge, to
      an event of its own span. */
  ghost predicate Unjoined(events: seq<Event>, e: Event) {
    && e.kind == Exit && e.owner.Some? && e.owner.value != 0
    && |e.edges| == 1 && OwnedOp(events, e.owner.value, e.edges[0])
  }

  ghost predicate OddOnesUnjoined(events: seq<Event>) {
    forall i | 0 <= i < |events| && !events[i].paired :: Unjoined(events, events[i])
  }

  ghost predicate Own(t: Trace) {
    OwnSpans(t.events, t.spans) && OddOnesUnjoined(t.events)
  }

  lemma OwnedOpLonger(events: seq<Event>, e: Event, k: nat, o: OpId)
    ensures OwnedOp(events, k, o) ==> OwnedOp(events + [e], k, o)
    ensures e.owner == Some(k) ==> OwnedOp(events + [e], k, e.md.op)
  {
    if OwnedOp(events, k, o) {
      var j :| 0 <= j < |events| && events[j].md.op == o && events[j].owner == Some(k);
      assert (events + [e])[j] == events[j];
    }
    assert (events + [e])[|events|] == e;
  }

  /** Any event and any new spans leave a span its own that keeps its record. */
  lemma OwnSpanLonger(events: seq<Event>, spans: seq<Span>, e: Event, spans': seq<Span>, k: nat)
    requires k < |spans| && OwnSpan(events, spans, k) && SameFamily(spans, spans')
    requires spans'[k].childEdges == spans[k].childEdges && |spans'[k].endArgs| % 2 == 0
    requires spans'[k].ctx == spans[k].ctx || (e.owner == Some(k) && e.md == spans'[k].ctx)
    ensures OwnSpan(events + [e], spans', k)
  {
    OwnedOpLonger(events, e, k, spans[k].ctx.op);
    forall m | m in spans[k].childEdges ensures OfChild(events + [e], spans', k, m.op) {
      var c: nat :| c < |spans| && spans[c].parent == Some(k) && OwnedOp(events, c, m.op);
      OwnedOpLonger(events, e, c, m.op);
    }
  }

  lemma OddOnesLonger(events: seq<Event>, e: Event)
    requires OddOnesUnjoined(events)
    requires !e.paired ==> Unjoined(events, e)
    ensures OddOnesUnjoined(events + [e])
  {
    var longer := events + [e];
    forall i | 0 <= i < |longer| && !longer[i].paired ensures Unjoined(longer, longer[i]) {
      var x := longer[i];
      assert Unjoined(events, x);
      OwnedOpLonger(events, e, x.owner.value, x.edges[0]);
    }
  }

  lemma EndArgsEven(events: seq<Event>, spans: seq<Span>, k: nat)
    requires k < |spans| && OwnSpan(events, spans, k)
    ensures |spans[k].endArgs| % 2 == 0
  {
  }

  lemma NewSpanIsOwn(events: seq<Event>, e: Event, spans: seq<Span>, k: nat)
    requires k < |spans| && spans[k].childEdges == [] && spans[k].endArgs == []
    requires e.owner == Some(k) && e.md == spans[k].ctx
    ensures OwnSpan(events + [e], spans, k)
  {
    OwnedOpLonger(events, e, k, spans[k].ctx.op);
  }

  lemma BeginKeepsOwn(t: Trace, parent: nat, name: string, args: seq<Arg>, op: OpId, outcome: Outcome)
    requires Inv(t) && Own(t) && parent < |t.spans| && op !in t.used
    ensures Own(Begun(t, parent, name, args, op, outcome))
  {
    hide OwnSpan, Unjoined, Linked, Paired, Joined, Drawn, Attached, AllAttached, HasOp, Judged, Plain;
    var p, t' := t.spans[parent], Begun(t, parent, name, args, op, outcome);
    FreshOp(t, parent, op);
    PlainOwn(p.ctx.task, args);
    if |t'.events| > |t.events| {
      var e := t'.events[|t.events|];
      OddOnesLonger(t.events, e);
      forall k: nat | k < |t'.spans| ensures OwnSpan(t'.events, t'.spans, k) {
        if k < |t.spans| {
          assert OwnSpan(t.events, t.spans, k);
          EndArgsEven(t.events, t.spans, k);
          OwnSpanLonger(t.events, t.spans, e, t'.spans, k);
        } else {
          NewSpanIsOwn(t.events, e, t'.spans, k);
        }
      }
    }
  }

  lemma NoteKeepsOwn(t: Trace, span: nat, kind: Label, args: seq<Arg>, op: OpId, outcome: Outcome)
    requires Inv(t) && Own(t) && span < |t.spans| && op !in t.used && kind in {Info, Error}
    ensures Own(Noted(t, span, kind, args, op, outcome))
  {
    hide OwnSpan, Unjoined, Linked, Paired, Joined, Drawn, Attached, AllAttached, HasOp, Judged, Plain;
    var s, t' := t.spans[span], Noted(t, span, kind, args, op, outcome);
    FreshOp(t, span, op);
    PlainOwn(s.ctx.task, args);
    if |t'.events| > |t.events| {
      var e := t'.events[|t.events|];
      OddOnesLonger(t.events, e);
      forall k: nat | k < |t'.spans| ensures OwnSpan(t'.events, t'.spans, k) {
        assert OwnSpan(t.events, t.spans, k);
        EndArgsEven(t.events, t.spans, k);
        OwnSpanLonger(t.events, t.spans, e, t'.spans, k);
      }
    } else {
      assert t'.spans == t.spans;
    }
  }

  lemma EndArgsKeepsOwn(t: Trace, span: nat, args: seq<Arg>)
    requires Own(t) && span < |t.spans|
    ensures Own(WithEndArgs(t, span, args))
  {
    hide OwnedOp;
    var t' := WithEndArgs(t, span, args);
    forall k: nat | k < |t'.spans| ensures OwnSpan(t'.events, t'.spans, k) {
      assert OwnSpan(t.events, t.spans, k);
      forall m | m in t.spans[k].childEdges ensures OfChild(t'.events, t'.spans, k, m.op) {
        var c: nat :| c < |t.spans| && t.spans[c].parent == Some(k) && OwnedOp(t.events, c, m.op);
        assert t'.spans[c].parent == Some(k);
      }
    }
  }

  /** The exit of a span is paired exactly when the arguments it is ended with are, or when it is
      the exit of the trace. */
  lemma ExitPairedIff(s: Span, span: nat, args: seq<Arg>)
    requires |s.endArgs| % 2 == 0
    ensures ExitLinks(s, span, args).paired <==> span == 0 || |args| % 2 == 0
    ensures !ExitLinks(s, span, args).paired ==> ExitLinks(s, span, args).own == []
  {
  }

  /** Spans after an end: own contexts, and the parent remembers an event of this child. */
  lemma OwnAfterEnd(events: seq<Event>, spans: seq<Span>, span: nat, op: OpId, outcome: Outcome, k: nat)
    requires ParentsFirst(spans) && OwnSpans(events, spans) && span < |spans| && k < |spans|
    requires OwnedOp(events, span, Advanced(spans[span].ctx, op, outcome).op)
    ensures OwnSpan(events, SpansAfterEnd(spans, span, op, outcome), k)
  {
    hide OwnedOp;
    var spans' := SpansAfterEnd(spans, span, op, outcome);
    assert OwnSpan(events, spans, k);
    forall m | m in spans'[k].childEdges ensures OfChild(events, spans', k, m.op) {
      if m in spans[k].childEdges {
        var c: nat :| c < |spans| && spans[c].parent == Some(k) && OwnedOp(events, c, m.op);
        assert spans'[c].parent == Some(k);
      } else {
        assert spans'[span].parent == Some(k);
      }
    }
  }

  lemma OwnFacts(events: seq<Event>, spans: seq<Span>, k: nat)
    requires k < |spans| && OwnSpan(events, spans, k)
    ensures OwnedOp(events, k, spans[k].ctx.op) && |spans[k].endArgs| % 2 == 0
  {
  }

  lemma OneEdge(events: seq<Event>, s: Span, e: Event, span: nat)
    requires e.kind == Exit && e.owner == Some(span) && span != 0 && e.edges == [] + [s.ctx.op]
    requires OwnedOp(events, span, s.ctx.op)
    ensures Unjoined(events, e)
  {
  }

  lemma EndKeepsOwn(t: Trace, span: nat, args: seq<Arg>, op: OpId, outcome: Outcome)
    requires Inv(t) && Own(t) && span < |t.spans| && op !in t.used
    ensures Own(Ended(t, span, args, op, outcome))
  {
    hide Unjoined, OwnSpan, Linked, Paired, Joined, Drawn, Attached, AllAttached, HasOp, Judged, ExitLinks, ExitArgs;
    var s, op', t' := t.spans[span], ExitOp(t, span, op), Ended(t, span, args, op, outcome);
    if !s.ended {
      ExitOpIsNew(t, span, op);
      assert OwnSpan(t.events, t.spans, span);
      OwnFacts(t.events, t.spans, span);
      var outcome' := Judged(s.ctx.task, ExitArgs(s, span, args), outcome);
      if outcome' != Refused {
        var e := NewEvent(s.ctx, op', Exit, Some(span), ExitLinks(s, span, args), outcome');
        ExitPairedIff(s, span, args);
        if !e.paired { OneEdge(t.events, s, e, span); }
        OddOnesLonger(t.events, e);
        forall k: nat | k < |t.spans| ensures OwnSpan(t'.events, t.spans, k) {
          assert OwnSpan(t.events, t.spans, k);
          OwnFacts(t.events, t.spans, k);
          OwnSpanLonger(t.events, t.spans, e, t.spans, k);
        }
        OwnedOpLonger(t.events, e, span, op');
      }
      forall k: nat | k < |t.spans| ensures OwnSpan(t'.events, t'.spans, k) {
        OwnAfterEnd(t'.events, t.spans, span, op', outcome', k);
      }
    }
  }

  lemma StepKeepsOwn(t: Trace, c: Call)
    requires Inv(t) && Own(t) && Allowed(t, c)
    ensures Own(Step(t, c))
  {
    match c {
      case BeginSpan(parent, name, args, op, outcome) => BeginKeepsOwn(t, parent, name, args, op, outcome);
      case Report(span, kind, args, op, outcome) => NoteKeepsOwn(t, span, kind, args, op, outcome);
      case End(span, args, op, outcome) => EndKeepsOwn(t, span, args, op, outcome);
      case AddEndArgs(span, args) => EndArgsKeepsOwn(t, span, args);
      case ExitMetadata(op) =>
    }
  }

  lemma {:induction false} RunKeepsOwn(t: Trace, calls: seq<Call>, t': Trace)
    requires Inv(t) && Own(t) && Leads(t, calls, t')
    ensures Own(t')
    decreases |calls|
  {
    if calls == [] {
    } else {
      StepKeeps(t, calls[0]);
      StepKeepsOwn(t, calls[0]);
      RunKeepsOwn(Step(t, calls[0]), calls[1..], t');
    }
  }

  lemma NewTraceOwn(task: TaskId, first: OpId, op: OpId)
    ensures Own(NewTrace(task, first, op))
  {
    var t := NewTrace(task, first, op);
    assert t.events[0].md.op == op && t.events[0].owner == Some(0);
    assert OwnedOp(t.events, 0, op);
  }

  lemma OneOwner(events: seq<Event>, k: nat, c: nat, o: OpId)
    requires Linked(events) && OwnedOp(events, k, o) && OwnedOp(events, c, o)
    ensures k == c
  {
    var i :| 0 <= i < |events| && events[i].md.op == o && events[i].owner == Some(k);
    var j :| 0 <= j < |events| && events[j].md.op == o && events[j].owner == Some(c);
    assert i == j;
  }

  /** No event of a child has the op ID of one of its parent's. */
  lemma NotOfBoth(events: seq<Event>, spans: seq<Span>, p: nat, o: OpId)
    requires Linked(events) && ParentsFirst(spans) && OwnedOp(events, p, o)
    ensures !OfChild(events, spans, p, o)
  {
    hide Linked, OwnedOp;
    forall c: nat | c < |spans| && spans[c].parent == Some(p) ensures !OwnedOp(events, c, o) {
      if OwnedOp(events, c, o) { OneOwner(events, p, c, o); }
    }
  }

  /** The exit that a call of End prepares has an edge to everything its span remembers of its
      children exactly when the call's arguments come in pairs, or the span is the trace, or it
      remembers nothing. */
  lemma ExitJoinsIff(t: Trace, span: nat, args: seq<Arg>, op: OpId, outcome: Outcome)
    requires Inv(t) && Own(t) && span < |t.spans| && op !in t.used
    requires var s := t.spans[span]; !s.ended && Judged(s.ctx.task, ExitArgs(s, span, args), outcome) != Refused
    ensures var s, events' := t.spans[span], Ended(t, span, args, op, outcome).events;
      && |events'| == |t.events| + 1 && Marks(events'[|t.events|], Exit, span)
      && ((forall m | m in s.childEdges :: m.op in events'[|t.events|].edges) <==>
            span == 0 || |args| % 2 == 0 || s.childEdges == [])
  {
    var s := t.spans[span];
    ExitOpIsNew(t, span, op);
    assert OwnSpan(t.events, t.spans, span) && Attached(t.events, s);
    ExitPairedIff(s, span, args);
    if s.childEdges != [] && !ExitLinks(s, span, args).paired {
      assert s.childEdges[0] in s.childEdges;
      NotOfBoth(t.events, t.spans, span, s.ctx.op);
    }
  }

  // ---------------------------------------------------------------- every run

  // ---------------------------------------------------------------- contexts

  /** o is the op ID of the latest event of span k. */
  ghost predicate LatestOf(events: seq<Event>, k: nat, o: OpId) {
    exists j :: 0 <= j < |events| && events[j].md.op == o && events[j].owner == Some(k)
      && forall i | j < i < |events| :: events[i].owner != Some(k)
  }

  /** The last edge of event i is to the latest event of its span; that of an entry to the latest
      event of the parent, or of some span, when the entry was dropped. */
  ghost predicate Continues(events: seq<Event>, spans: seq<Span>, i: nat)
    requires 0 < i < |events| && events[i].edges != []
  {
    var e, o := events[i], events[i].edges[|events[i].edges| - 1];
    match e.owner
    case None => exists p: nat :: p < |spans| && LatestOf(events[..i], p, o)
    case Some(k) =>
      if e.kind != Entry then LatestOf(events[..i], k, o)
      else k < |spans| && spans[k].parent.Some? && LatestOf(events[..i], spans[k].parent.value, o)
  }

  /** Contexts are at the latest events of their spans, and every event continues one. */
  ghost predicate Current(t: Trace) {
    && (forall k: nat | k < |t.spans| :: LatestOf(t.events, k, t.spans[k].ctx.op))
    && (forall i: nat | 0 < i < |t.events| :: t.events[i].edges != [] && Continues(t.events, t.spans, i))
  }

  lemma LatestLonger(events: seq<Event>, e: Event, k: nat, o: OpId)
    ensures e.owner == Some(k) ==> LatestOf(events + [e], k, e.md.op)
    ensures e.owner != Some(k) && LatestOf(events, k, o) ==> LatestOf(events + [e], k, o)
  {
    var longer := events + [e];
    assert longer[|events|] == e;
    if e.owner != Some(k) && LatestOf(events, k, o) {
      var j :| 0 <= j < |events| && events[j].md.op == o && events[j].owner == Some(k)
        && forall i | j < i < |events| :: events[i].owner != Some(k);
      assert longer[j] == events[j];
    }
  }

  lemma ContinuesStill(events: seq<Event>, spans: seq<Span>, e: Event, spans': seq<Span>, i: nat)
    requires 0 < i < |events| && events[i].edges != [] && Continues(events, spans, i) && SameFamily(spans, spans')
    ensures Continues(events + [e], spans', i)
  {
    hide LatestOf;
    var x, longer := events[i], events + [e];
    assert longer[..i] == events[..i] && longer[i] == x;
    if x.owner.Some? && x.kind == Entry {
      var k := x.owner.value;
      assert spans'[k].parent == spans[k].parent;
    } else if x.owner == None {
      var p: nat :| p < |spans| && LatestOf(events[..i], p, x.edges[|x.edges| - 1]);
      assert LatestOf(longer[..i], p, x.edges[|x.edges| - 1]);
    }
  }

  /** An event added on the context of span k, which only moves on contexts of its own span. */
  lemma CurrentLonger(t: Trace, k: nat, e: Event, t': Trace)
    requires Current(t) && t'.events == t.events + [e] && SameFamily(t.spans, t'.spans)
    requires k < |t.spans| && t.events != []
    requires e.edges != [] && e.edges[|e.edges| - 1] == t.spans[k].ctx.op
    requires if e.owner == None then true
             else if e.kind != Entry then e.owner == Some(k)
             else e.owner.value < |t'.spans| && t'.spans[e.owner.value].parent == Some(k)
    requires forall j: nat | j < |t'.spans| ::
      if e.owner == Some(j) then t'.spans[j].ctx.op == e.md.op
      else j < |t.spans| && t'.spans[j].ctx.op == t.spans[j].ctx.op
    ensures Current(t')
  {
    hide LatestOf;
    var n := |t.events|;
    forall j: nat | j < |t'.spans| ensures LatestOf(t'.events, j, t'.spans[j].ctx.op) {
      if j < |t.spans| { LatestLonger(t.events, e, j, t.spans[j].ctx.op); } else { LatestLonger(t.events, e, j, 0); }
    }
    forall i: nat | 0 < i < |t'.events| ensures t'.events[i].edges != [] && Continues(t'.events, t'.spans, i) {
      if i < n {
        ContinuesStill(t.events, t.spans, e, t'.spans, i);
      } else {
        assert t'.events[..n] == t.events && t'.events[n] == e;
        assert LatestOf(t.events, k, t.spans[k].ctx.op);
      }
    }
  }

  /** Without an event, contexts and parents stay. */
  lemma CurrentStill(t: Trace, t': Trace)
    requires Current(t) && t'.events == t.events && SameFamily(t.spans, t'.spans) && |t'.spans| == |t.spans|
    requires forall j: nat | j < |t.spans| :: t'.spans[j].ctx.op == t.spans[j].ctx.op
    ensures Current(t')
  {
    hide LatestOf;
    forall i: nat | 0 < i < |t'.events| ensures t'.events[i].edges != [] && Continues(t'.events, t'.spans, i) {
      assert Continues(t.events, t.spans, i);
    }
  }

  lemma EventsThere(t: Trace)
    requires Inv(t)
    ensures t.events != []
  {
  }

  lemma BeginKeepsCurrent(t: Trace, parent: nat, name: string, args: seq<Arg>, op: OpId, outcome: Outcome)
    requires Inv(t) && Current(t) && parent < |t.spans| && op !in t.used
    ensures Current(Begun(t, parent, name, args, op, outcome))
  {
    hide Current, Linked, Paired, Joined, Drawn, Attached, AllAttached, HasOp, Judged, Plain;
    var p, t' := t.spans[parent], Begun(t, parent, name, args, op, outcome);
    FreshOp(t, parent, op);
    EventsThere(t);
    if |t'.events| > |t.events| {
      CurrentLonger(t, parent, t'.events[|t.events|], t');
    } else {
      CurrentStill(t, t');
    }
  }

  lemma NoteKeepsCurrent(t: Trace, span: nat, kind: Label, args: seq<Arg>, op: OpId, outcome: Outcome)
    requires Inv(t) && Current(t) && span < |t.spans| && op !in t.used && kind in {Info, Error}
    ensures Current(Noted(t, span, kind, args, op, outcome))
  {
    hide Current, Linked, Paired, Joined, Drawn, Attached, AllAttached, HasOp, Judged, Plain;
    var t' := Noted(t, span, kind, args, op, outcome);
    FreshOp(t, span, op);
    EventsThere(t);
    if |t'.events| > |t.events| {
      CurrentLonger(t, span, t'.events[|t.events|], t');
    } else {
      CurrentStill(t, t');
    }
  }

  lemma EndKeepsCurrent(t: Trace, span: nat, args: seq<Arg>, op: OpId, outcome: Outcome)
    requires Inv(t) && Current(t) && span < |t.spans| && op !in t.used
    ensures Current(Ended(t, span, args, op, outcome))
  {
    hide Current, Linked, Paired, Joined, Drawn, Attached, AllAttached, HasOp, Judged, ExitLinks, ExitArgs;
    var s, op', t' := t.spans[span], ExitOp(t, span, op), Ended(t, span, args, op, outcome);
    if !s.ended {
      ExitOpIsNew(t, span, op);
      EndFamily(t.spans, span, op', Judged(s.ctx.task, ExitArgs(s, span, args), outcome));
      EventsThere(t);
      if |t'.events| > |t.events| {
        CurrentLonger(t, span, t'.events[|t.events|], t');
      } else {
        CurrentStill(t, t');
      }
    }
  }

  lemma StepKeepsCurrent(t: Trace, c: Call)
    requires Inv(t) && Current(t) && Allowed(t, c)
    ensures Current(Step(t, c))
  {
    match c {
      case BeginSpan(parent, name, args, op, outcome) => BeginKeepsCurrent(t, parent, name, args, op, outcome);
      case Report(span, kind, args, op, outcome) => NoteKeepsCurrent(t, span, kind, args, op, outcome);
      case End(span, args, op, outcome) => EndKeepsCurrent(t, span, args, op, outcome);
      case AddEndArgs(span, args) => CurrentStill(t, WithEndArgs(t, span, args));
      case ExitMetadata(op) => CurrentStill(t, Step(t, c));
    }
  }

  lemma {:induction false} RunKeepsCurrent(t: Trace, calls: seq<Call>, t': Trace)
    requires Inv(t) && Current(t) && Leads(t, calls, t')
    ensures Current(t')
    decreases |calls|
  {
    if calls == [] {
    } else {
      StepKeeps(t, calls[0]);
      StepKeepsCurrent(t, calls[0]);
      RunKeepsCurrent(Step(t, calls[0]), calls[1..], t');
    }
  }

  /** In every run the last of an event's own edges is to the latest event of its span before it, and
      that of an entry to the latest event of the parent. */
  lemma EveryEventContinues(task: TaskId, first: OpId, op: OpId, calls: seq<Call>, t: Trace)
    requires Leads(NewTrace(task, first, op), calls, t)
    ensures forall i: nat, k: nat | 0 < i < |t.events| && t.events[i].owner == Some(k) ::
      var e := t.events[i];
      && k < |t.spans| && e.edges != []
      && if e.kind != Entry then LatestOf(t.events[..i], k, e.edges[|e.edges| - 1])
         else t.spans[k].parent.Some? && LatestOf(t.events[..i], t.spans[k].parent.value, e.edges[|e.edges| - 1])
  {
    var start := NewTrace(task, first, op);
    NewTraceInv(task, first, op);
    RunKeeps(start, calls, t);
    assert LatestOf(start.events, 0, op) by { assert start.events[0].md.op == op; }
    RunKeepsCurrent(start, calls, t);
    forall i: nat, k: nat | 0 < i < |t.events| && t.events[i].owner == Some(k) ensures k < |t.spans| {
    }
    hide LatestOf;
    forall i: nat | 0 < i < |t.events| ensures t.events[i].edges != [] && Continues(t.events, t.spans, i) {
    }
  }

  // ---------------------------------------------------------------- after the end

  /** After the exit of a span there is no event of it, and no entry of a child. */
  ghost predicate QuietAfter(events: seq<Event>, spans: seq<Span>) {
    forall i: nat, j: nat, k: nat | i < j < |events| && Marks(events[i], Exit, k) ::
      && events[j].owner != Some(k)
      && !(events[j].kind == Entry && events[j].owner.Some? && events[j].owner.value < |spans|
           && spans[events[j].owner.value].parent == Some(k))
  }

  lemma QuietLonger(t: Trace, k: nat, e: Event, t': Trace)
    requires Paired(t.events, t.spans) && QuietAfter(t.events, t.spans) && k < |t.spans| && !t.spans[k].ended
    requires t'.events == t.events + [e] && SameFamily(t.spans, t'.spans)
    requires ParentsFirst(t.spans) && ParentsFirst(t'.spans)
    requires e.owner.Some? ==>
      if e.kind == Entry
      then e.owner.value == |t.spans| && |t'.spans| > |t.spans| && t'.spans[|t.spans|].parent == Some(k)
      else e.owner == Some(k)
    ensures QuietAfter(t'.events, t'.spans)
  {
    forall i: nat, j: nat, m: nat | i < j < |t'.events| && Marks(t'.events[i], Exit, m)
      ensures t'.events[j].owner != Some(m)
      ensures !(t'.events[j].kind == Entry && t'.events[j].owner.Some? && t'.events[j].owner.value < |t'.spans|
                && t'.spans[t'.events[j].owner.value].parent == Some(m))
    {
      assert Marks(t.events[i], Exit, m);
      assert t.events[i].owner.value < |t.spans|;
      if j < |t.events| && t.events[j].owner.Some? { assert t.events[j].owner.value < |t.spans|; }
    }
  }

  lemma QuietStill(t: Trace, t': Trace)
    requires Paired(t.events, t.spans) && QuietAfter(t.events, t.spans)
    requires t'.events == t.events && SameFamily(t.spans, t'.spans) && |t'.spans| == |t.spans|
    ensures QuietAfter(t'.events, t'.spans)
  {
  }

  lemma BeginStaysQuiet(t: Trace, parent: nat, name: string, args: seq<Arg>, op: OpId, outcome: Outcome)
    requires Inv(t) && QuietAfter(t.events, t.spans) && parent < |t.spans| && op !in t.used
    ensures var t' := Begun(t, parent, name, args, op, outcome); QuietAfter(t'.events, t'.spans)
  {
    hide QuietAfter, Linked, Paired, Joined, Drawn, Attached, AllAttached, HasOp, Judged, Plain;
    var t' := Begun(t, parent, name, args, op, outcome);
    FreshOp(t, parent, op);
    if |t'.events| > |t.events| {
      QuietLonger(t, parent, t'.events[|t.events|], t');
    } else {
      QuietStill(t, t');
    }
  }

  lemma NoteStaysQuiet(t: Trace, span: nat, kind: Label, args: seq<Arg>, op: OpId, outcome: Outcome)
    requires Inv(t) && QuietAfter(t.events, t.spans) && span < |t.spans| && op !in t.used && kind in {Info, Error}
    ensures var t' := Noted(t, span, kind, args, op, outcome); QuietAfter(t'.events, t'.spans)
  {
    hide QuietAfter, Linked, Paired, Joined, Drawn, Attached, AllAttached, HasOp, Judged, Plain;
    var t' := Noted(t, span, kind, args, op, outcome);
    if |t'.events| > |t.events| {
      QuietLonger(t, span, t'.events[|t.events|], t');
    } else {
      QuietStill(t, t');
    }
  }

  lemma EndStaysQuiet(t: Trace, span: nat, args: seq<Arg>, op: OpId, outcome: Outcome)
    requires Inv(t) && QuietAfter(t.events, t.spans) && span < |t.spans| && op !in t.used
    ensures var t' := Ended(t, span, args, op, outcome); QuietAfter(t'.events, t'.spans)
  {
    hide QuietAfter, Linked, Paired, Joined, Drawn, Attached, AllAttached, HasOp, Judged, ExitLinks, ExitArgs;
    var s, t' := t.spans[span], Ended(t, span, args, op, outcome);
    if !s.ended {
      EndFamily(t.spans, span, ExitOp(t, span, op), Judged(s.ctx.task, ExitArgs(s, span, args), outcome));
      if |t'.events| > |t.events| {
        QuietLonger(t, span, t'.events[|t.events|], t');
      } else {
        QuietStill(t, t');
      }
    }
  }

  lemma StepStaysQuiet(t: Trace, c: Call)
    requires Inv(t) && QuietAfter(t.events, t.spans) && Allowed(t, c)
    ensures QuietAfter(Step(t, c).events, Step(t, c).spans)
  {
    hide QuietAfter, Linked, Paired, Joined, Drawn, Attached, AllAttached, HasOp, Begun, Noted, Ended;
    match c {
      case BeginSpan(parent, name, args, op, outcome) => BeginStaysQuiet(t, parent, name, args, op, outcome);
      case Report(span, kind, args, op, outcome) => NoteStaysQuiet(t, span, kind, args, op, outcome);
      case End(span, args, op, outcome) => EndStaysQuiet(t, span, args, op, outcome);
      case AddEndArgs(span, args) => QuietStill(t, WithEndArgs(t, span, args));
      case ExitMetadata(op) => QuietStill(t, Step(t, c));
    }
  }

  lemma {:induction false} RunStaysQuiet(t: Trace, calls: seq<Call>, t': Trace)
    requires Inv(t) && QuietAfter(t.events, t.spans) && Leads(t, calls, t')
    ensures QuietAfter(t'.events, t'.spans)
    decreases |calls|
  {
    if calls == [] {
    } else {
      StepKeeps(t, calls[0]);
      StepStaysQuiet(t, calls[0]);
      RunStaysQuiet(Step(t, calls[0]), calls[1..], t');
    }
  }

  /** In every run nothing is reported by a span after its exit, nor begun under it. */
  lemma NothingAfterExit(task: TaskId, first: OpId, op: OpId, calls: seq<Call>, t: Trace)
    requires Leads(NewTrace(task, first, op), calls, t)
    ensures QuietAfter(t.events, t.spans)
  {
    NewTraceInv(task, first, op);
    RunStaysQuiet(NewTrace(task, first, op), calls, t);
  }

  /** The op ID reserved for the exit of the trace, and no exit of the trace with another. */
  ghost predicate Reserved(t: Trace, o: OpId) {
    t.exitEvent == Some(o) && forall i | 0 <= i < |t.events| && Marks(t.events[i], Exit, 0) :: t.events[i].md.op == o
  }

  lemma StepKeepsReserved(t: Trace, c: Call, o: OpId)
    requires Inv(t) && Reserved(t, o) && Allowed(t, c)
    ensures Reserved(Step(t, c), o)
  {
    hide Linked, Paired, Joined, Drawn, Attached, AllAttached, HasOp, Judged, Plain, ExitLinks, ExitArgs;
  }

  /** An op ID that is reserved before the trace ends is that of its exit. */
  lemma {:induction false} ReservedIsUsed(t: Trace, calls: seq<Call>, t': Trace, o: OpId)
    requires Inv(t) && Leads(t, calls, t') && t.exitEvent == Some(o)
    requires t.spans[0].ended ==> Reserved(t, o)
    ensures Reserved(t', o)
    decreases |calls|
  {
    assert Reserved(t, o);
    if calls == [] {
    } else {
      StepKeeps(t, calls[0]);
      StepKeepsReserved(t, calls[0], o);
      ReservedIsUsed(Step(t, calls[0]), calls[1..], t', o);
    }
  }

  predicate HasChildExit(events: seq<Event>, spans: seq<Span>, i: nat, p: nat)
    requires i < |events|
  {
    exists j :: 0 <= j < i && ChildExit(events[j], spans, p)
  }

  /** Event i has an edge to each exit of a child of p before it. */
  predicate JoinsChildren(events: seq<Event>, spans: seq<Span>, i: nat, p: nat)
    requires i < |events|
  {
    forall j | 0 <= j < i && ChildExit(events[j], spans, p) :: events[j].md.op in events[i].edges
  }

  lemma UnpairedMisses(t: Trace, i: nat, j: nat, p: nat)
    requires Linked(t.events) && ParentsFirst(t.spans) && OddOnesUnjoined(t.events)
    requires j < i < |t.events| && Marks(t.events[i], Exit, p) && !t.events[i].paired
    requires ChildExit(t.events[j], t.spans, p)
    ensures t.events[j].md.op !in t.events[i].edges
  {
    hide Linked;
    var e, o := t.events[i], t.events[j].md.op;
    assert Unjoined(t.events, e);
    NotOfBoth(t.events, t.spans, p, e.edges[0]);
    assert OwnedOp(t.events, t.events[j].owner.value, o);
    assert OfChild(t.events, t.spans, p, o);
    assert forall x | x in e.edges :: x == e.edges[0];
  }

  lemma PairedJoins(t: Trace, i: nat, p: nat)
    requires Joined(t.events, t.spans) && i < |t.events| && Marks(t.events[i], Exit, p) && t.events[i].paired
    ensures JoinsChildren(t.events, t.spans, i, p)
  {
  }

  /** An exit joins the exits of children before it exactly when it is paired or there is none. */
  lemma JoinsIff(t: Trace, i: nat, p: nat)
    requires Inv(t) && Own(t) && i < |t.events| && Marks(t.events[i], Exit, p)
    ensures JoinsChildren(t.events, t.spans, i, p) <==> t.events[i].paired || !HasChildExit(t.events, t.spans, i, p)
    ensures p == 0 ==> t.events[i].paired
  {
    hide Linked, Paired, Joined, Drawn, AllAttached, OwnSpans, ChildExit;
    if t.events[i].paired {
      PairedJoins(t, i, p);
    } else if HasChildExit(t.events, t.spans, i, p) {
      assert Unjoined(t.events, t.events[i]);
      var j :| 0 <= j < i && ChildExit(t.events[j], t.spans, p);
      UnpairedMisses(t, i, j, p);
    } else {
      assert Unjoined(t.events, t.events[i]);
    }
  }

  /** In every run of a new trace, whatever arguments it is given: events other than the root entry
      have edges of their own, all of them to earlier events of the same task, from every event
      such edges lead to the root entry, each span has one entry and at most one exit, and an exit
      has an edge to each exit of a child before it exactly when its callers' arguments came in
      pairs or there is none, which is always so for the exit of the trace. */
  lemma EveryRunIsJoined(task: TaskId, first: OpId, op: OpId, calls: seq<Call>, t: Trace)
    requires Leads(NewTrace(task, first, op), calls, t)
    ensures Linked(t.events) && Paired(t.events, t.spans) && Joined(t.events, t.spans)
    ensures forall i: nat | i < |t.events| :: LeadsToRoot(t.events, i)
    ensures forall i: nat, p: nat | i < |t.events| && Marks(t.events[i], Exit, p) ::
      && (JoinsChildren(t.events, t.spans, i, p) <==> t.events[i].paired || !HasChildExit(t.events, t.spans, i, p))
      && (p == 0 ==> t.events[i].paired)
  {
    NewTraceInv(task, first, op);
    NewTraceOwn(task, first, op);
    RunKeeps(NewTrace(task, first, op), calls, t);
    RunKeepsOwn(NewTrace(task, first, op), calls, t);
    forall i: nat | i < |t.events| ensures LeadsToRoot(t.events, i) {
      var path := ReachesRoot(t.events, i);
    }
    forall i: nat, p: nat | i < |t.events| && Marks(t.events[i], Exit, p)
      ensures JoinsChildren(t.events, t.spans, i, p) <==> t.events[i].paired || !HasChildExit(t.events, t.spans, i, p)
      ensures p == 0 ==> t.events[i].paired
    {
      JoinsIff(t, i, p);
    }
  }

  /** Spans are ended with arguments in pairs. */
  predicate EndsInPairs(c: Call) {
    c.End? && c.span != 0 ==> |c.args| % 2 == 0
  }

  lemma StepStaysPaired(t: Trace, c: Call)
    requires Own(t) && Allowed(t, c) && ParentsFirst(t.spans) && EndsInPairs(c)
    requires forall e | e in t.events :: e.paired
    ensures forall e | e in Step(t, c).events :: e.paired
  {
    hide Asked, Judged, EdgeArgs, SameTask;
    if c.End? {
      assert OwnSpan(t.events, t.spans, c.span);
      ExitPairedIff(t.spans[c.span], c.span, c.args);
    }
  }

  lemma {:induction false} RunStaysPaired(t: Trace, calls: seq<Call>, t': Trace)
    requires Inv(t) && Own(t) && Leads(t, calls, t') && forall c | c in calls :: EndsInPairs(c)
    requires forall e | e in t.events :: e.paired
    ensures forall e | e in t'.events :: e.paired
    decreases |calls|
  {
    if calls == [] {
    } else {
      assert EndsInPairs(calls[0]) && forall c | c in calls[1..] :: c in calls;
      StepKeeps(t, calls[0]);
      StepKeepsOwn(t, calls[0]);
      StepStaysPaired(t, calls[0]);
      RunStaysPaired(Step(t, calls[0]), calls[1..], t');
    }
  }

  /** So in a run whose spans are ended with arguments in pairs, the exit of every span has an edge
      to each exit of a child before it. */
  lemma EveryExitJoins(task: TaskId, first: OpId, op: OpId, calls: seq<Call>, t: Trace)
    requires Leads(NewTrace(task, first, op), calls, t) && forall c | c in calls :: EndsInPairs(c)
    ensures forall i: nat, p: nat | i < |t.events| && Marks(t.events[i], Exit, p) ::
      JoinsChildren(t.events, t.spans, i, p)
  {
    NewTraceInv(task, first, op);
    NewTraceOwn(task, first, op);
    EveryRunIsJoined(task, first, op, calls, t);
    RunStaysPaired(NewTrace(task, first, op), calls, t);
  }

  /** A trace in which a span has been begun, and a child of it. */
  const BEGUN := Trace(
    [Span(None, Metadata(7, 1), [], [], false),
     Span(Some(0), Metadata(7, 2), [], [], false),
     Span(Some(1), Metadata(7, 3), [], [], false)],
    [Event(Metadata(7, 1), Entry, Some(0), [], [], true, true),
     Event(Metadata(7, 2), Entry, Some(1), [], [1], true, true),
     Event(Metadata(7, 3), Entry, Some(2), [], [2], true, true)],
    None, {0, 1, 2, 3})

  /** And in which the child has been ended. */
  const EXAMPLE := Trace(
    [Span(None, Metadata(7, 1), [], [], false),
     Span(Some(0), Metadata(7, 2), [Metadata(7, 4)], [], false),
     Span(Some(1), Metadata(7, 4), [], [], true)],
    BEGUN.events + [Event(Metadata(7, 4), Exit, Some(2), [], [3], true, true)],
    None, {0, 1, 2, 3, 4})

  lemma BegunIsReached()
    ensures var t := Begun(NewTrace(7, 0, 1), 0, "parent", [], 2, Queued);
      |t.spans| == 2 && Begun(t, 1, "child", [], 3, Queued) == BEGUN
  {
    assert [] + [1] == [1] && [] + [2] == [2];
  }

  lemma ExampleIsReached()
    ensures Ended(BEGUN, 2, [], 4, Queued) == EXAMPLE
  {
    var s := BEGUN.spans[2];
    assert ExitArgs(s, 2, []) == [];
    assert [] + [3] == [3] && [] + [Metadata(7, 4)] == [Metadata(7, 4)];
    assert SpansAfterEnd(BEGUN.spans, 2, 4, Queued) == EXAMPLE.spans;
  }

  /** What the arguments of the end of a span that remembers one child are read as. */
  lemma ReadWithChild(s: Span, child: Metadata, args: seq<Arg>)
    requires s.childEdges == [child] && s.endArgs == [] && s.ctx.task == child.task
    ensures ExitArgs(s, 1, args) == args + EdgeArgs([child])
    ensures var paired := |args| % 2 == 0;
      ExitLinks(s, 1, args) == Links(Asked(child.task, args), if paired then [child.op] else [], paired)
    ensures EdgesOf(child.task, args + EdgeArgs([child])) ==
      if |args| % 2 == 1 then if !IsKey(args[|args| - 1]) then None else EdgesOf(child.task, args)
      else if EdgesOf(child.task, args).None? then None
      else Some(EdgesOf(child.task, args).value + [child.op])
  {
    hide EdgesOf, EdgeArgs;
    assert [child][1..] == [] && SameTask(child.task, [child]) == [child.op];
    EdgesOfBoth(child.task, args, [child]);
    assert args + s.endArgs == args;
  }

  /** When that span is ended with no argument, a string, or something else, only the first exit
      has an edge to that of the child, and the last is not reported at all. */
  lemma OddArgumentLosesChildren()
    ensures ChildExit(EXAMPLE.events[3], EXAMPLE.spans, 1)
    ensures Ended(EXAMPLE, 1, [], 5, Queued).events
         == EXAMPLE.events + [Event(Metadata(7, 5), Exit, Some(1), [], [4, 2], true, true)]
    ensures Ended(EXAMPLE, 1, [Text("x")], 5, Queued).events
         == EXAMPLE.events + [Event(Metadata(7, 5), Exit, Some(1), [], [2], false, true)]
    ensures Ended(EXAMPLE, 1, [Other], 5, Queued).events == EXAMPLE.events
  {
    var s, child := EXAMPLE.spans[1], Metadata(7, 4);
    ReadWithChild(s, child, []);
    ReadWithChild(s, child, [Text("x")]);
    ReadWithChild(s, child, [Other]);
    hide EdgeArgs, SameTask, ExitArgs, ExitLinks;
    assert [4] + [2] == [4, 2] && [] + [2] == [2];
  }

  /** The edges of an exit as they are read from all of its arguments, and the one to its context,
      are those asked for and those that are added. */
  lemma ExitEdgesAsRead(s: Span, span: nat, args: seq<Arg>)
    ensures var all := EdgesOf(s.ctx.task, ExitArgs(s, span, args)); var links := ExitLinks(s, span, args);
      all.Some? ==> all.value == links.asked + links.own
  {
    var callers := CallersArgs(s, span, args);
    EdgesOfBoth(s.ctx.task, callers, s.childEdges);
    if EdgesOf(s.ctx.task, callers).Some? {
      assert EdgesOf(s.ctx.task, callers).value + [] == EdgesOf(s.ctx.task, callers).value;
    }
  }

  /** Edges never form a cycle: an edge leads to an event with a smaller index only. */
  lemma EdgesGoBack(events: seq<Event>, i: nat, j: nat)
    requires Linked(events) && i < |events| && j < |events| && events[j].md.op in events[i].edges
    ensures j < i
  {
    if i > 0 {
      var o := events[j].md.op;
      assert HasOp(events[..i], o);
      var k :| 0 <= k < i && events[..i][k].md.op == o;
    }
  }

  // ---------------------------------------------------------------- which spans have an exit

  ghost predicate AllExited(events: seq<Event>, spans: seq<Span>) {
    forall k: nat | k < |spans| && spans[k].ended :: HasMark(events, Exit, k)
  }

  lemma ExitedLonger(events: seq<Event>, spans: seq<Span>, e: Event, spans': seq<Span>)
    requires AllExited(events, spans)
    requires forall k: nat | k < |spans'| && spans'[k].ended :: (k < |spans| && spans[k].ended) || Marks(e, Exit, k)
    ensures AllExited(events + [e], spans')
  {
    forall k: nat | k < |spans'| && spans'[k].ended ensures HasMark(events + [e], Exit, k) {
      HasMarkLonger(events, e, Exit, k);
    }
  }

  /** A call of End prepares the exit of its span. */
  predicate Prepared(t: Trace, c: Call)
    requires Allowed(t, c)
  {
    c.End? && !t.spans[c.span].ended ==>
      var s := t.spans[c.span]; Judged(s.ctx.task, ExitArgs(s, c.span, c.args), c.outcome) != Refused
  }

  ghost predicate AllPrepared(t: Trace, calls: seq<Call>)
    decreases |calls|
  {
    calls != [] ==>
      && ParentsFirst(t.spans) && Allowed(t, calls[0]) && Prepared(t, calls[0])
      && AllPrepared(Step(t, calls[0]), calls[1..])
  }

  lemma ExitOpIsNew'(t: Trace, c: Call)
    requires Inv(t) && Allowed(t, c) && c.End?
    ensures !t.spans[c.span].ended ==> t.spans[c.span].ctx.op != ExitOp(t, c.span, c.op)
  {
    if !t.spans[c.span].ended { ExitOpIsNew(t, c.span, c.op); }
  }

  lemma ExitedAfterStep(t: Trace, c: Call)
    requires Inv(t) && Allowed(t, c) && Prepared(t, c) && AllExited(t.events, t.spans)
    ensures AllExited(Step(t, c).events, Step(t, c).spans)
  {
    hide Linked, Paired, Joined, Drawn, Attached, AllAttached, HasOp, HasMark, Judged, Plain, ExitLinks, ExitArgs;
    var t' := Step(t, c);
    if c.End? {
      ExitOpIsNew'(t, c);
      EndFamily(t.spans, c.span, ExitOp(t, c.span, c.op), Judged(t.spans[c.span].ctx.task,
        ExitArgs(t.spans[c.span], c.span, c.args), c.outcome));
    }
    if |t'.events| > |t.events| { ExitedLonger(t.events, t.spans, t'.events[|t.events|], t'.spans); }
  }

  /** Span k has ended without an exit. */
  ghost predicate Exitless(t: Trace, k: nat) {
    k < |t.spans| && t.spans[k].ended && !HasMark(t.events, Exit, k)
  }

  lemma StaysExitless(t: Trace, c: Call, k: nat)
    requires Inv(t) && Allowed(t, c) && Exitless(t, k)
    ensures Exitless(Step(t, c), k)
  {
    hide Linked, Paired, Joined, Drawn, Attached, AllAttached, HasOp, HasMark, Judged, Plain, ExitLinks, ExitArgs;
    var t' := Step(t, c);
    if |t'.events| > |t.events| { HasMarkLonger(t.events, t'.events[|t.events|], Exit, k); }
  }

  lemma {:induction false} RunStaysExitless(t: Trace, calls: seq<Call>, t': Trace, k: nat)
    requires Inv(t) && Leads(t, calls, t') && Exitless(t, k)
    ensures Exitless(t', k)
    decreases |calls|
  {
    if calls == [] {
    } else {
      StepKeeps(t, calls[0]);
      StaysExitless(t, calls[0], k);
      RunStaysExitless(Step(t, calls[0]), calls[1..], t', k);
    }
  }

  lemma UnpreparedIsExitless(t: Trace, c: Call)
    requires Inv(t) && Allowed(t, c) && !Prepared(t, c)
    ensures Exitless(Step(t, c), c.span)
  {
    var span, op := c.span, ExitOp(t, c.span, c.op);
    EndFamily(t.spans, span, op, Refused);
  }

  lemma {:induction false} EndedSpansExit(t: Trace, calls: seq<Call>, t': Trace)
    requires Inv(t) && Leads(t, calls, t') && AllExited(t.events, t.spans)
    ensures AllExited(t'.events, t'.spans) <==> AllPrepared(t, calls)
    decreases |calls|
  {
    if calls == [] {
    } else {
      var c := calls[0];
      StepKeeps(t, c);
      if Prepared(t, c) {
        ExitedAfterStep(t, c);
        EndedSpansExit(Step(t, c), calls[1..], t');
      } else {
        UnpreparedIsExitless(t, c);
        RunStaysExitless(Step(t, c), calls[1..], t', c.span);
      }
    }
  }

  /** In every run each ended span has exactly one entry and at most one exit; and all have an exit
      exactly when every call of End prepared one. */
  lemma EveryEndedSpanIsPaired(task: TaskId, first: OpId, op: OpId, calls: seq<Call>, t: Trace)
    requires Leads(NewTrace(task, first, op), calls, t)
    ensures Paired(t.events, t.spans)
    ensures AllExited(t.events, t.spans) <==> AllPrepared(NewTrace(task, first, op), calls)
  {
    NewTraceInv(task, first, op);
    RunKeeps(NewTrace(task, first, op), calls, t);
    EndedSpansExit(NewTrace(task, first, op), calls, t);
  }

  /** What a caller can do for that: end spans with arguments in pairs, and keys that are strings. */
  predicate WellCalled(c: Call) {
    match c
    case End(_, args, _, outcome) => outcome != Refused && Keyed(args) && EndsInPairs(c)
    case AddEndArgs(_, args) => Keyed(args)
    case _ => true
  }

  ghost predicate KeyedSpans(spans: seq<Span>) {
    forall k | 0 <= k < |spans| :: Keyed(spans[k].endArgs) && |spans[k].endArgs| % 2 == 0
  }

  lemma KeyedAppended(a: seq<Arg>, b: seq<Arg>)
    requires Keyed(a) && |a| % 2 == 0 && Keyed(b)
    ensures Keyed(a + b)
  {
    KeyedIff(0, a);
    KeyedIff(0, b);
    EdgesOfAppended(0, a, b);
    KeyedIff(0, a + b);
  }

  lemma TrimmedStaysKeyed(args: seq<Arg>)
    requires Keyed(args)
    ensures Keyed(Trimmed(args))
  {
  }

  lemma KeyedNothing()
    ensures Keyed([])
  {
  }

  lemma KeyedEndIsNotRefused(s: Span, span: nat, args: seq<Arg>, outcome: Outcome)
    requires Keyed(args) && (span != 0 ==> |args| % 2 == 0) && Keyed(s.endArgs) && |s.endArgs| % 2 == 0
    ensures Judged(s.ctx.task, ExitArgs(s, span, args), outcome) == outcome
  {
    hide Keyed, EdgesOf;
    var callers := CallersArgs(s, span, args);
    TrimmedStaysKeyed(args);
    if span == 0 { KeyedAppended(s.endArgs, Trimmed(args)); } else { KeyedAppended(args, s.endArgs); }
    KeyedIff(s.ctx.task, callers);
    EdgesOfBoth(s.ctx.task, callers, s.childEdges);
  }

  lemma TrimmedIsEven(args: seq<Arg>)
    ensures |Trimmed(args)| % 2 == 0
  {
  }

  lemma WellCalledKeepsKeyed(t: Trace, c: Call)
    requires Allowed(t, c) && ParentsFirst(t.spans) && WellCalled(c) && KeyedSpans(t.spans)
    ensures KeyedSpans(Step(t, c).spans)
  {
    hide Keyed, EdgesOf, Judged, Trimmed, Emitted, ExitLinks;
    KeyedNothing();
    if c.AddEndArgs? {
      TrimmedStaysKeyed(c.args);
      TrimmedIsEven(c.args);
      KeyedAppended(t.spans[c.span].endArgs, Trimmed(c.args));
    }
  }

  lemma WellCalledIsPrepared(t: Trace, c: Call)
    requires Allowed(t, c) && ParentsFirst(t.spans) && WellCalled(c) && KeyedSpans(t.spans)
    ensures Prepared(t, c) && KeyedSpans(Step(t, c).spans)
  {
    hide Keyed, Judged, ExitArgs, Step;
    WellCalledKeepsKeyed(t, c);
    if c.End? { KeyedEndIsNotRefused(t.spans[c.span], c.span, c.args, c.outcome); }
  }

  lemma {:induction false} WellCalledRun(t: Trace, calls: seq<Call>, t': Trace)
    requires Inv(t) && Leads(t, calls, t') && KeyedSpans(t.spans) && forall c | c in calls :: WellCalled(c)
    ensures AllPrepared(t, calls)
    decreases |calls|
  {
    if calls == [] {
    } else {
      assert WellCalled(calls[0]) && forall c | c in calls[1..] :: c in calls;
      StepKeeps(t, calls[0]);
      WellCalledIsPrepared(t, calls[0]);
      WellCalledRun(Step(t, calls[0]), calls[1..], t');
    }
  }

  /** So then every ended span has its exit, and every exit its children. */
  lemma WellCalledRunsAreComplete(task: TaskId, first: OpId, op: OpId, calls: seq<Call>, t: Trace)
    requires Leads(NewTrace(task, first, op), calls, t) && forall c | c in calls :: WellCalled(c)
    ensures AllExited(t.events, t.spans)
    ensures forall i: nat, p: nat | i < |t.events| && Marks(t.events[i], Exit, p) ::
      JoinsChildren(t.events, t.spans, i, p)
  {
    NewTraceInv(task, first, op);
    EveryEndedSpanIsPaired(task, first, op, calls, t);
    WellCalledRun(NewTrace(task, first, op), calls, t);
    forall c | c in calls ensures EndsInPairs(c) { assert WellCalled(c); }
    EveryExitJoins(task, first, op, calls, t);
  }

  predicate NotDropped(c: Call) {
    c.ExitMetadata? || c.AddEndArgs? || c.outcome != Dropped
  }

  lemma {:induction false} QueuedThroughout(t: Trace, calls: seq<Call>, t': Trace)
    requires Leads(t, calls, t') && (forall c | c in calls :: NotDropped(c)) && forall e | e in t.events :: e.queued
    ensures forall e | e in t'.events :: e.queued
    decreases |calls|
  {
    if calls == [] {
    } else {
      assert NotDropped(calls[0]) && forall c | c in calls[1..] :: c in calls;
      QueuedThroughout(Step(t, calls[0]), calls[1..], t');
    }
  }

  predicate SentAs(events: seq<Event>, o: OpId) {
    exists j :: 0 <= j < |events| && events[j].md.op == o && events[j].queued
  }

  /** When the queue is never full, every event that edges lead to was sent. */
  lemma NothingMissing(task: TaskId, first: OpId, op: OpId, calls: seq<Call>, t: Trace)
    requires Leads(NewTrace(task, first, op), calls, t) && forall c | c in calls :: NotDropped(c)
    ensures forall i: nat, o | i < |t.events| && o in t.events[i].edges :: SentAs(t.events, o)
  {
    EveryRunIsJoined(task, first, op, calls, t);
    QueuedThroughout(NewTrace(task, first, op), calls, t);
    forall i: nat, o | i < |t.events| && o in t.events[i].edges ensures SentAs(t.events, o) {
      assert i > 0 && HasOp(t.events[..i], o);
      var j :| 0 <= j < i && t.events[..i][j].md.op == o;
      assert t.events[j] in t.events;
    }
  }
}
