/** Spans and their contexts as the objects a program holds, refining TraceGraph. */
module Spans {
  import opened Common
  import opened EventArgs
  import opened TraceGraph

  class Context {
    var md: Metadata

    constructor (md: Metadata)
      ensures this.md == md
    {
      this.md := md;
    }

    method Copy() returns (c: Context)
      ensures fresh(c) && c.md == md
    {
      c := new Context(md);
    }
  }

  /** A span; index is its place in the order of creation. */
  class LayerSpan {
    const parent: LayerSpan?
    const aoCtx: Context
    const index: nat
    var childEdges: seq<Metadata>
    var endArgs: seq<Arg>
    var ended: bool

    constructor (parent: LayerSpan?, aoCtx: Context, index: nat)
      ensures this.parent == parent && this.aoCtx == aoCtx && this.index == index
      ensures childEdges == [] && endArgs == [] && !ended
    {
      this.parent, this.aoCtx, this.index := parent, aoCtx, index;
      childEdges, endArgs, ended := [], [], false;
    }

    function Value(): Span
      reads this, aoCtx
    {
      Span(if parent == null then None else Some(parent.index), aoCtx.md, childEdges, endArgs, ended)
    }

    method AddChildEdge(ctx: Context)
      modifies this`childEdges
      ensures childEdges == old(childEdges) + [ctx.md]
    {
      childEdges := childEdges + [ctx.md];
    }

    /** Keeps arguments for the end; an odd one is cut off. */
    method AddEndArgs(args: seq<Arg>)
      modifies this`endArgs
      ensures endArgs == if ended then old(endArgs) else old(endArgs) + Trimmed(args)
    {
      if !ended {
        var cut := args;
        if |cut| % 2 == 1 {
          cut := cut[..|cut| - 1];
        }
        endArgs := endArgs + cut;
      }
    }

    /** Adds an edge for each child that is remembered. */
    method WithChildEdges(args: seq<Arg>) returns (all: seq<Arg>)
      ensures all == args + EdgeArgs(childEdges)
    {
      all := args;
      assert childEdges[0..] == childEdges;
      for i := 0 to |childEdges|
        invariant all + EdgeArgs(childEdges[i..]) == args + EdgeArgs(childEdges)
      {
        Regroup(all, [EDGE, Id(childEdges[i])], EdgeArgs(childEdges[i + 1..]));
        all := all + [EDGE, Id(childEdges[i])];
      }
      assert all + [] == all;
    }
  }

  /** Spans and their contexts are all different objects, and parents come before their children. */
  ghost predicate WellFormed(spans: seq<LayerSpan>, contexts: seq<Context>) {
    && |contexts| == |spans| > 0 && spans[0].parent == null
    && (forall i | 0 <= i < |spans| :: spans[i].aoCtx == contexts[i] && spans[i].index == i)
    && (forall i, j | 0 <= i < j < |spans| :: spans[i] != spans[j] && contexts[i] != contexts[j])
    && (forall i | 0 < i < |spans| :: spans[i].parent in spans[..i])
  }

  lemma PlaceOf(spans: seq<LayerSpan>, contexts: seq<Context>, s: LayerSpan)
    requires WellFormed(spans, contexts) && s in spans
    ensures s.index < |spans| && spans[s.index] == s && contexts[s.index] == s.aoCtx
    ensures if s.index == 0 then s.parent == null
            else s.parent != null && s.parent.index < s.index && spans[s.parent.index] == s.parent
    ensures forall k: nat | k < |spans| && k != s.index :: spans[k] != s && spans[k].aoCtx != s.aoCtx
  {
  }

  lemma OneMore(spans: seq<LayerSpan>, contexts: seq<Context>, s: LayerSpan)
    requires WellFormed(spans, contexts) && s.index == |spans| && s.parent in spans
    requires s !in spans && s.aoCtx !in contexts
    ensures WellFormed(spans + [s], contexts + [s.aoCtx])
  {
    var longer := spans + [s];
    forall i | 0 < i < |longer| ensures longer[i].parent in longer[..i] {
      assert longer[..i] == spans[..i];
    }
  }

  /** What spans with these contexts hold. */
  ghost function Values(spans: seq<LayerSpan>, contexts: seq<Context>): (values: seq<Span>)
    requires WellFormed(spans, contexts)
    reads spans, contexts
    ensures ParentsFirst(values) && |values| == |spans|
  {
    var values := seq(|spans|, i requires 0 <= i < |spans| reads spans, contexts => spans[i].Value());
    assert ParentsFirst(values) by {
      forall i | 0 < i < |values| ensures values[i].parent.Some? && values[i].parent.value < i {
        PlaceOf(spans, contexts, spans[i]);
      }
    }
    values
  }

  /** An event as it is sent, with all its Edge keys in order. */
  datatype Sent = Sent(md: Metadata, kind: Label, owner: Option<nat>, edges: seq<OpId>, queued: bool)

  function AsSent(e: Event): Sent {
    Sent(e.md, e.kind, e.owner, e.asked + e.edges, e.queued)
  }

  function AllSent(events: seq<Event>): (sent: seq<Sent>)
    ensures |sent| == |events| && forall i | 0 <= i < |events| :: sent[i] == AsSent(events[i])
  {
    seq(|events|, i requires 0 <= i < |events| => AsSent(events[i]))
  }

  /** What a report adds to a log. */
  function Logged(log: seq<Sent>, ctx: Metadata, op: OpId, kind: Label, owner: Option<nat>, args: seq<Arg>,
                  outcome: Outcome): seq<Sent>
  {
    var outcome := Judged(ctx.task, args, outcome);
    if outcome == Refused || ctx.op == op then log
    else log + [Sent(Metadata(ctx.task, op), kind, owner, Asked(ctx.task, args) + [ctx.op], outcome == Queued)]
  }

  /** Which is the event that is emitted, when its edges are those read from the arguments. */
  lemma LoggedIsEmitted(events: seq<Event>, ctx: Metadata, op: OpId, kind: Label, owner: Option<nat>, args: seq<Arg>,
                        links: Links, outcome: Outcome)
    requires EdgesOf(ctx.task, args).Some? ==> EdgesOf(ctx.task, args).value == links.asked + links.own
    ensures AllSent(Emitted(events, ctx, op, kind, owner, links, Judged(ctx.task, args, outcome)))
         == Logged(AllSent(events), ctx, op, kind, owner, args, outcome)
  {
    hide EdgesOf;
    var outcome' := Judged(ctx.task, args, outcome);
    if outcome' != Refused && ctx.op != op {
      Regroup(links.asked, links.own, [ctx.op]);
    }
  }

  lemma PlainEdges(task: TaskId, args: seq<Arg>)
    ensures var links := Plain(task, args);
      EdgesOf(task, args).Some? ==> EdgesOf(task, args).value == links.asked + links.own
  {
    if EdgesOf(task, args).Some? { assert EdgesOf(task, args).value + [] == EdgesOf(task, args).value; }
  }

  lemma CallersOfSpan(s: Span, span: nat, args: seq<Arg>)
    requires span != 0
    ensures CallersArgs(s, span, args) == args + s.endArgs
    ensures ExitArgs(s, span, args) == args + s.endArgs + EdgeArgs(s.childEdges)
  {
  }

  /** What is logged, and where the context is then, when the arguments can be read. */
  lemma LoggedIs(log: seq<Sent>, ctx: Metadata, op: OpId, kind: Label, owner: Option<nat>, args: seq<Arg>,
                 outcome: Outcome)
    ensures outcome == Refused ==>
      && Logged(log, ctx, op, kind, owner, args, outcome) == log
      && Advanced(ctx, op, Judged(ctx.task, args, outcome)) == ctx
    ensures outcome != Refused && EdgesOf(ctx.task, args).Some? && ctx.op != op ==>
      && Advanced(ctx, op, Judged(ctx.task, args, outcome)) == Metadata(ctx.task, op)
      && Logged(log, ctx, op, kind, owner, args, outcome)
         == log + [Sent(Metadata(ctx.task, op), kind, owner, EdgesOf(ctx.task, args).value + [ctx.op],
                        outcome == Queued)]
    ensures Judged(ctx.task, args, outcome) == Queued <==> outcome == Queued && EdgesOf(ctx.task, args).Some?
    ensures Judged(ctx.task, args, outcome) == Queued && ctx.op != op ==>
      Advanced(ctx, op, Judged(ctx.task, args, outcome)) == Metadata(ctx.task, op)
  {
    hide EdgesOf;
  }

  /** An entry that is refused has no owner, but neither is it emitted. */
  lemma OwnerOfQueued(events: seq<Event>, md: Metadata, op: OpId, index: nat, args: seq<Arg>, outcome: Outcome)
    ensures var judged, links := Judged(md.task, args, outcome), Plain(md.task, args);
      Emitted(events, md, op, Entry, if outcome == Queued then Some(index) else None, links, judged)
      == Emitted(events, md, op, Entry, if judged == Queued then Some(index) else None, links, judged)
  {
  }

  /** A trace, its spans, and the events they reported. Each method takes the trace through the
      step of TraceGraph that its ensures names, so what those steps keep, its objects keep. The
      log holds the events of the history as they are sent. */
  class Tracing {
    var log: seq<Sent>
    var spans: seq<LayerSpan>
    var exitEvent: Option<OpId>
    ghost var history: seq<Event>
    ghost var contexts: seq<Context>
    ghost var used: set<OpId>

    ghost predicate Valid()
      reads this
    {
      WellFormed(spans, contexts) && log == AllSent(history)
    }

    ghost function Abs(): (t: Trace)
      requires Valid()
      reads this, spans, contexts
      ensures ParentsFirst(t.spans) && |t.spans| == |spans|
    {
      Trace(Values(spans, contexts), history, exitEvent, used)
    }

    /** A new sampled trace, whose root entry has been queued. */
    constructor (task: TaskId, first: OpId, op: OpId)
      ensures Valid() && Abs() == NewTrace(task, first, op)
      ensures forall s | s in spans :: fresh(s) && fresh(s.aoCtx)
    {
      var ctx := new Context(Metadata(task, op));
      var root := new LayerSpan(null, ctx, 0);
      spans, contexts := [root], [ctx];
      log := [Sent(Metadata(task, op), Entry, Some(0), [], true)];
      history := [Event(Metadata(task, op), Entry, Some(0), [], [], true, true)];
      exitEvent := None;
      used := {first, op};
      new;
      assert AsSent(history[0]) == log[0];
      assert Values(spans, contexts) == NewTrace(task, first, op).spans;
    }

    /** Reads arguments in pairs, up to a key that is not a string. */
    method ReadArgs(task: TaskId, args: seq<Arg>) returns (edges: Option<seq<OpId>>)
      ensures edges == EdgesOf(task, args)
    {
      var read: seq<OpId> := [];
      var i := 0;
      assert args[0..] == args;
      if EdgesOf(task, args).Some? { assert [] + EdgesOf(task, args).value == EdgesOf(task, args).value; }
      while i + 1 < |args|
        invariant 0 <= i <= |args|
        invariant EdgesOf(task, args) ==
          if EdgesOf(task, args[i..]).None? then None else Some(read + EdgesOf(task, args[i..]).value)
      {
        assert args[i..][2..] == args[i + 2..];
        if !IsKey(args[i]) {
          return None;
        }
        if EdgesOf(task, args[i + 2..]).Some? {
          Regroup(read, EdgeOf(task, args[i], args[i + 1]), EdgesOf(task, args[i + 2..]).value);
        }
        read := read + EdgeOf(task, args[i], args[i + 1]);
        i := i + 2;
      }
      assert read + [] == read;
      return Some(read);
    }

    /** Adds the edges that the arguments stand for, and one to the context, checks the event
        against the context, and moves the context on to it. The result says whether the event was
        queued. */
    method ReportEvent(ctx: Context, op: OpId, kind: Label, owner: Option<nat>, args: seq<Arg>, outcome: Outcome)
      returns (ok: bool)
      modifies this`log, ctx
      ensures log == Logged(old(log), old(ctx.md), op, kind, owner, args, outcome)
      ensures ctx.md == Advanced(old(ctx.md), op, Judged(old(ctx.md.task), args, outcome))
      ensures ok <==> Judged(old(ctx.md.task), args, outcome) == Queued && old(ctx.md.op) != op
    {
      hide EdgesOf;
      if outcome == Refused {
        return false;
      }
      var read := ReadArgs(ctx.md.task, args);
      if read.None? {
        return false;
      }
      var e := Sent(Metadata(ctx.md.task, op), kind, owner, read.value + [ctx.md.op], outcome == Queued);
      if ctx.md.op == e.md.op {
        return false;
      }
      ctx.md := ctx.md.(op := e.md.op);
      log := log + [e];
      return e.queued;
    }

    /** Reports an event with no edges but those asked for and that to the context. */
    method LogPlain(ctx: Context, op: OpId, kind: Label, owner: Option<nat>, args: seq<Arg>, outcome: Outcome)
      returns (ok: bool)
      requires log == AllSent(history)
      modifies this`log, this`history, ctx
      ensures log == AllSent(history)
      ensures var judged := Judged(old(ctx.md.task), args, outcome);
        && history == Emitted(old(history), old(ctx.md), op, kind, owner, Plain(old(ctx.md.task), args), judged)
        && ctx.md == Advanced(old(ctx.md), op, judged)
        && (ok <==> judged == Queued && old(ctx.md.op) != op)
      ensures log == Logged(old(log), old(ctx.md), op, kind, owner, args, outcome)
    {
      hide Emitted, Advanced, Logged, Judged, Plain, AllSent;
      ghost var md := ctx.md;
      ok := ReportEvent(ctx, op, kind, owner, args, outcome);
      PlainEdges(md.task, args);
      LoggedIsEmitted(history, md, op, kind, owner, args, Plain(md.task, args), outcome);
      history := Emitted(history, md, op, kind, owner, Plain(md.task, args), Judged(md.task, args, outcome));
    }

    /** Reports the exit of a span with its callers' arguments and those for its children. */
    method LogExit(s: LayerSpan, callers: seq<Arg>, op: OpId, outcome: Outcome, ghost args: seq<Arg>)
      requires log == AllSent(history) && callers == CallersArgs(s.Value(), s.index, args)
      modifies this`log, this`history, s.aoCtx
      ensures log == AllSent(history)
      ensures var v := old(s.Value()); var judged := Judged(v.ctx.task, ExitArgs(v, s.index, args), outcome);
        && history == Emitted(old(history), v.ctx, op, Exit, Some(s.index), ExitLinks(v, s.index, args), judged)
        && s.aoCtx.md == Advanced(v.ctx, op, judged)
        && log == Logged(old(log), v.ctx, op, Exit, Some(s.index), callers + EdgeArgs(v.childEdges), outcome)
    {
      hide Emitted, Advanced, Logged, Judged, ExitLinks, EdgeArgs, AllSent;
      ghost var v := s.Value();
      var all := s.WithChildEdges(callers);
      var _ := ReportEvent(s.aoCtx, op, Exit, Some(s.index), all, outcome);
      ExitEdgesAsRead(v, s.index, args);
      LoggedIsEmitted(history, v.ctx, op, Exit, Some(s.index), all, ExitLinks(v, s.index, args), outcome);
      history := Emitted(history, v.ctx, op, Exit, Some(s.index), ExitLinks(v, s.index, args),
                         Judged(v.ctx.task, all, outcome));
    }

    /** Reports the entry on the given context, and gives the span another copy of it. There is a
        new span just when the entry was queued. */
    method NewSpan(ctx: Context, name: string, parent: LayerSpan, args: seq<Arg>, op: OpId, outcome: Outcome)
      returns (s: LayerSpan?)
      requires Valid() && parent in spans && !parent.ended
      requires ctx !in contexts && ctx.md == parent.aoCtx.md && op != ctx.md.op
      modifies this`log, this`history, this`spans, this`contexts, this`used, ctx
      ensures Valid() && Abs() == Begun(old(Abs()), parent.index, name, args, op, outcome)
      ensures spans == if s == null then old(spans) else old(spans) + [s]
      ensures s != null ==> fresh(s) && fresh(s.aoCtx)
      ensures s != null <==> name != "" && outcome == Queued && EdgesOf(old(ctx.md.task), args).Some?
      ensures s != null ==> s.parent == parent && !s.ended && s.childEdges == [] && s.endArgs == []
      ensures s != null ==> s.aoCtx.md == Metadata(old(ctx.md.task), op)
    {
      hide WellFormed, ParentsFirst, Emitted, Advanced, Judged, Plain, AllSent, Logged, EdgesOf;
      if name == "" {
        return null;
      }
      PlaceOf(spans, contexts, parent);
      ghost var before, md, earlier := Values(spans, contexts), ctx.md, history;
      var owner := if outcome == Queued then Some(|spans|) else None;
      LoggedIs(log, md, op, Entry, owner, args, outcome);
      var ok := LogPlain(ctx, op, Entry, owner, args, outcome);
      OwnerOfQueued(earlier, md, op, |spans|, args, outcome);
      used := used + {op};
      assert Values(spans, contexts) == before;
      if !ok {
        return null;
      }
      var own := ctx.Copy();
      s := new LayerSpan(parent, own, |spans|);
      OneMore(spans, contexts, s);
      spans, contexts := spans + [s], contexts + [own];
      assert Values(spans, contexts) == before + [s.Value()];
    }

    /** Begins a child on a copy of the parent's context, so the parent's own context stays where
        it is. */
    method BeginSpan(parent: LayerSpan, name: string, args: seq<Arg>, op: OpId, outcome: Outcome)
      returns (s: LayerSpan?)
      requires Valid() && parent in spans && op != parent.aoCtx.md.op
      modifies this`log, this`history, this`spans, this`contexts, this`used
      ensures Valid() && Abs() == Begun(old(Abs()), parent.index, name, args, op, outcome)
      ensures spans == if s == null then old(spans) else old(spans) + [s]
      ensures s != null ==> fresh(s) && fresh(s.aoCtx)
      ensures s != null <==>
        !parent.ended && name != "" && outcome == Queued && EdgesOf(parent.aoCtx.md.task, args).Some?
      ensures s != null ==> s.parent == parent && !s.ended && s.childEdges == [] && s.endArgs == []
      ensures s != null ==> s.aoCtx.md == Metadata(parent.aoCtx.md.task, op)
    {
      hide AllSent;
      PlaceOf(spans, contexts, parent);
      if parent.ended {
        return null;
      }
      ghost var before := Values(spans, contexts);
      var ctx := parent.aoCtx.Copy();
      assert Values(spans, contexts) == before;
      s := NewSpan(ctx, name, parent, args, op, outcome);
    }

    /** Info and Error report on the span's own context. */
    method Report(s: LayerSpan, kind: Label, args: seq<Arg>, op: OpId, outcome: Outcome)
      requires Valid() && s in spans && kind in {Info, Error}
      modifies this`log, this`history, this`used, s.aoCtx
      ensures Valid() && Abs() == Noted(old(Abs()), s.index, kind, args, op, outcome)
      ensures old(s.ended) || outcome == Refused ==> log == old(log) && s.aoCtx.md == old(s.aoCtx.md)
      ensures var md, read := old(s.aoCtx.md), EdgesOf(old(s.aoCtx.md.task), args);
        !old(s.ended) && outcome != Refused && read.Some? && md.op != op ==>
          && s.aoCtx.md == Metadata(md.task, op)
          && log == old(log)
             + [Sent(Metadata(md.task, op), kind, Some(s.index), read.value + [md.op], outcome == Queued)]
    {
      hide WellFormed, ParentsFirst, Emitted, Advanced, Judged, Plain, AllSent, Logged, EdgesOf;
      PlaceOf(spans, contexts, s);
      if s.ended {
        return;
      }
      ghost var before := Values(spans, contexts);
      LoggedIs(log, s.aoCtx.md, op, kind, Some(s.index), args, outcome);
      var _ := LogPlain(s.aoCtx, op, kind, Some(s.index), args, outcome);
      used := used + {op};
      assert Values(spans, contexts) == before[s.index := s.Value()];
    }

    method AddEndArgs(s: LayerSpan, args: seq<Arg>)
      requires Valid() && s in spans
      modifies s`endArgs
      ensures Valid() && Abs() == WithEndArgs(old(Abs()), s.index, args)
      ensures s.endArgs == if s.ended then old(s.endArgs)
                           else old(s.endArgs) + (if |args| % 2 == 1 then args[..|args| - 1] else args)
    {
      hide WellFormed, ParentsFirst, AllSent;
      PlaceOf(spans, contexts, s);
      ghost var before := Values(spans, contexts);
      s.AddEndArgs(args);
      assert Values(spans, contexts) == before[s.index := s.Value()];
    }

    /** Ends a span: its exit has an edge to the last event of each child that ended before it,
        unless an odd argument comes before these edges; and its parent, unless that has ended,
        will have an edge to it. */
    method End(s: LayerSpan, args: seq<Arg>, op: OpId, outcome: Outcome)
      requires Valid() && s in spans && s.parent != null
      modifies this`log, this`history, this`used, s, s.aoCtx, s.parent`childEdges
      ensures Valid() && Abs() == Ended(old(Abs()), s.index, args, op, outcome)
      ensures s.ended && (old(s.ended) ==> log == old(log) && s.aoCtx.md == old(s.aoCtx.md))
      ensures !old(s.ended) ==> s.childEdges == [] && s.endArgs == []
      ensures s.parent.childEdges ==
        old(s.parent.childEdges) + (if old(s.ended) || old(s.parent.ended) then [] else [s.aoCtx.md])
      ensures var md, all := old(s.aoCtx.md), args + old(s.endArgs) + EdgeArgs(old(s.childEdges));
        var read := EdgesOf(md.task, all);
        !old(s.ended) && outcome != Refused && read.Some? && md.op != op ==>
          && s.aoCtx.md == Metadata(md.task, op)
          && log == old(log)
             + [Sent(Metadata(md.task, op), Exit, Some(s.index), read.value + [md.op], outcome == Queued)]
    {
      hide WellFormed, ParentsFirst, Emitted, Advanced, Judged, ExitLinks, ExitArgs, CallersArgs, AllSent, Logged;
      hide EdgesOf, EdgeArgs;
      PlaceOf(spans, contexts, s);
      PlaceOf(spans, contexts, s.parent);
      if s.ended {
        return;
      }
      ghost var before := Values(spans, contexts);
      CallersOfSpan(s.Value(), s.index, args);
      LoggedIs(log, s.aoCtx.md, op, Exit, Some(s.index), args + s.endArgs + EdgeArgs(s.childEdges), outcome);
      LogExit(s, args + s.endArgs, op, outcome, args);
      used := used + {op};
      s.childEdges := [];
      s.endArgs := [];
      s.ended := true;
      if !s.parent.ended {
        s.parent.AddChildEdge(s.aoCtx);
      }
      assert Values(spans, contexts) == before[s.index := s.Value()][s.parent.index := s.parent.Value()];
    }

    /** Ends the trace: its arguments are cut to an even number first. */
    method EndTrace(args: seq<Arg>, op: OpId, outcome: Outcome)
      requires Valid()
      modifies this`log, this`history, this`used, spans[0], spans[0].aoCtx
      ensures Valid() && Abs() == Ended(old(Abs()), 0, args, op, outcome)
      ensures var root, md, id := spans[0], old(spans[0].aoCtx.md), if exitEvent.Some? then exitEvent.value else op;
        var cut := if |args| % 2 == 1 then args[..|args| - 1] else args;
        var read := EdgesOf(md.task, old(root.endArgs) + cut + EdgeArgs(old(root.childEdges)));
        && root.ended && (old(root.ended) ==> log == old(log))
        && (!old(root.ended) && outcome != Refused && read.Some? && md.op != id ==>
              log == old(log) + [Sent(Metadata(md.task, id), Exit, Some(0), read.value + [md.op], outcome == Queued)])
    {
      hide ParentsFirst, AllSent, EdgesOf, EdgeArgs, Ended;
      var root := spans[0];
      PlaceOf(spans, contexts, root);
      if !root.ended {
        ghost var before := Abs();
        AddEndArgs(root, args);
        ReportExit(op, outcome);
        EndedAfterArgs(before, args, op, outcome);
      } else {
        EndedTwice(Abs(), 0, args, op, outcome);
      }
    }

    /** Ends the trace, with the exit event reserved for it if there is one. */
    method ReportExit(op: OpId, outcome: Outcome)
      requires Valid()
      modifies this`log, this`history, this`used, spans[0], spans[0].aoCtx
      ensures Valid() && Abs() == Ended(old(Abs()), 0, [], op, outcome)
      ensures var root, md, id := spans[0], old(spans[0].aoCtx.md), if exitEvent.Some? then exitEvent.value else op;
        var read := EdgesOf(md.task, old(root.endArgs) + EdgeArgs(old(root.childEdges)));
        && root.ended && (old(root.ended) ==> log == old(log))
        && (!old(root.ended) && outcome != Refused && read.Some? && md.op != id ==>
              log == old(log) + [Sent(Metadata(md.task, id), Exit, Some(0), read.value + [md.op], outcome == Queued)])
    {
      hide Emitted, Advanced, Judged, ExitLinks, ExitArgs, AllSent, Logged, EdgesOf, EdgeArgs;
      var root := spans[0];
      if root.ended {
        return;
      }
      ghost var before := Values(spans, contexts);
      var id := op;
      if exitEvent.Some? {
        id := exitEvent.value;
      }
      assert root.endArgs + Trimmed([]) == root.endArgs;
      LoggedIs(log, root.aoCtx.md, id, Exit, Some(0), root.endArgs + EdgeArgs(root.childEdges), outcome);
      LogExit(root, root.endArgs, id, outcome, []);
      used := used + {id};
      root.childEdges := [];
      root.endArgs := [];
      root.ended := true;
      assert Values(spans, contexts) == before[0 := root.Value()];
    }

    /** Reserves the exit event of the trace, and says what its identifiers will be. */
    method ExitMetadata(op: OpId) returns (md: Metadata)
      requires Valid()
      modifies this`exitEvent, this`used
      ensures Valid() && Abs().spans == old(Abs()).spans && log == old(log) && history == old(history)
      ensures exitEvent == if old(exitEvent).Some? then old(exitEvent) else Some(op)
      ensures used == if old(exitEvent).Some? then old(used) else old(used) + {op}
      ensures Some(md.op) == exitEvent && md.task == spans[0].aoCtx.md.task
    {
      ghost var before := Values(spans, contexts);
      if exitEvent == None {
        exitEvent := Some(op);
        used := used + {op};
      }
      assert Values(spans, contexts) == before;
      md := Metadata(spans[0].aoCtx.md.task, exitEvent.value);
    }
  }
}
