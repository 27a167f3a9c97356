/** Arguments of events, which are keys and values by turns, and the edges that they stand for. */
module EventArgs {
  import opened Common

  type OpId = nat

  type TaskId = nat

  /** The identifiers a context or an X-Trace string carries. */
  datatype Metadata = Metadata(task: TaskId, op: OpId)

  /** An argument of any type: a string that is X-Trace metadata or another one, a pointer to
      metadata, a context, or something else. */
  datatype Arg = Text(text: string) | Id(md: Metadata) | IdPointer(md: Metadata) | ContextOf(md: Metadata) | Other

  const EDGE := Text("Edge")

  predicate IsKey(a: Arg) {
    a.Text? || a.Id?
  }

  /** The edge that a key and its value stand for in an event of a task, if any. Metadata of other
      tasks is ignored. */
  function EdgeOf(task: TaskId, key: Arg, value: Arg): seq<OpId> {
    if key != EDGE then []
    else match value
      case Id(md) => if md.task == task then [md.op] else []
      case IdPointer(md) => if md.task == task then [md.op] else []
      case ContextOf(md) => [md.op]
      case _ => []
  }

  /** The edges that arguments stand for, read in pairs; None if a key is not a string. An
      argument without a value is ignored. */
  function EdgesOf(task: TaskId, args: seq<Arg>): Option<seq<OpId>>
    decreases |args|
  {
    if |args| < 2 then Some([])
    else if !IsKey(args[0]) then None
    else
      match EdgesOf(task, args[2..])
      case None => None
      case Some(rest) => Some(EdgeOf(task, args[0], args[1]) + rest)
  }

  /** Those of metadata strings that belong to a task. */
  function SameTask(task: TaskId, edges: seq<Metadata>): (ops: seq<OpId>)
    ensures forall m | m in edges && m.task == task :: m.op in ops
    ensures forall o | o in ops :: Metadata(task, o) in edges
  {
    if edges == [] then []
    else
      var rest := SameTask(task, edges[1..]);
      if edges[0].task == task then [edges[0].op] + rest else rest
  }

  /** The arguments that a span adds for the children it remembers. */
  function EdgeArgs(children: seq<Metadata>): (args: seq<Arg>)
    ensures |args| == 2 * |children|
  {
    if children == [] then [] else [EDGE, Id(children[0])] + EdgeArgs(children[1..])
  }

  /** A list of end arguments is cut to an even length before it is added. */
  function Trimmed(args: seq<Arg>): (trimmed: seq<Arg>)
    ensures |trimmed| % 2 == 0 && |args| - 1 <= |trimmed| <= |args|
  {
    if |args| % 2 == 1 then args[..|args| - 1] else args
  }

  // ---------------------------------------------------------------- what is read from such lists

  /** Pairs in front of other arguments leave these in pairs. */
  lemma {:induction false} EdgesOfAppended(task: TaskId, a: seq<Arg>, b: seq<Arg>)
    requires |a| % 2 == 0
    ensures EdgesOf(task, a + b) ==
      if EdgesOf(task, a).None? || EdgesOf(task, b).None? then None
      else Some(EdgesOf(task, a).value + EdgesOf(task, b).value)
    decreases |a|
  {
    if a == [] {
      assert a + b == b;
      if EdgesOf(task, b).Some? { assert [] + EdgesOf(task, b).value == EdgesOf(task, b).value; }
    } else if IsKey(a[0]) {
      EdgesOfAppended(task, a[2..], b);
      assert (a + b)[2..] == a[2..] + b;
      if EdgesOf(task, a[2..]).Some? && EdgesOf(task, b).Some? {
        Regroup(EdgeOf(task, a[0], a[1]), EdgesOf(task, a[2..]).value, EdgesOf(task, b).value);
      }
    }
  }

  /** The arguments for children are read as edges to those of the same task. */
  lemma {:induction false} EdgesOfChildren(task: TaskId, children: seq<Metadata>)
    ensures EdgesOf(task, EdgeArgs(children)) == Some(SameTask(task, children))
  {
    if children == [] {
      assert EdgeArgs(children) == [];
    } else {
      var args, first, rest := EdgeArgs(children), children[0], children[1..];
      EdgesOfChildren(task, rest);
      assert args[0] == EDGE && args[1] == Id(first) && args[2..] == EdgeArgs(rest);
      assert [] + SameTask(task, rest) == SameTask(task, rest);
    }
  }

  /** With one argument too many in front, what were values are read as keys, and the key of an
      edge as the value of something else: no edge is left. */
  lemma {:induction false} EdgesOfShifted(task: TaskId, x: Arg, children: seq<Metadata>)
    ensures EdgesOf(task, [x] + EdgeArgs(children)) == if IsKey(x) || children == [] then Some([]) else None
    decreases |children|
  {
    if children == [] {
      assert [x] + EdgeArgs(children) == [x];
    } else {
      var args, first, rest := [x] + EdgeArgs(children), Id(children[0]), children[1..];
      EdgesOfShifted(task, first, rest);
      assert args[0] == x && args[1] == EDGE && args[2..] == [first] + EdgeArgs(rest);
      assert EdgeOf(task, x, EDGE) + [] == [];
    }
  }

  /** The arguments of a caller and those for children after them: the edges for the children are
      read exactly when the caller's come in pairs; if they do not, there are none, and nothing
      is reported if the last is not a string and there are children. */
  lemma EdgesOfBoth(task: TaskId, callers: seq<Arg>, children: seq<Metadata>)
    ensures var asked := EdgesOf(task, callers);
      EdgesOf(task, callers + EdgeArgs(children)) ==
        if |callers| % 2 == 1 then if children != [] && !IsKey(callers[|callers| - 1]) then None else asked
        else if asked.None? then None
        else Some(asked.value + SameTask(task, children))
  {
    if |callers| % 2 == 0 {
      EdgesOfAppended(task, callers, EdgeArgs(children));
      EdgesOfChildren(task, children);
    } else {
      var pairs, x := callers[..|callers| - 1], callers[|callers| - 1];
      assert callers == pairs + [x] && callers + EdgeArgs(children) == pairs + ([x] + EdgeArgs(children));
      EdgesOfAppended(task, pairs, [x]);
      EdgesOfAppended(task, pairs, [x] + EdgeArgs(children));
      EdgesOfShifted(task, x, children);
      if EdgesOf(task, pairs).Some? { assert EdgesOf(task, pairs).value + [] == EdgesOf(task, pairs).value; }
    }
  }

  /** Every key is a string. */
  predicate Keyed(args: seq<Arg>) {
    forall i | 0 <= i < |args| - 1 && i % 2 == 0 :: IsKey(args[i])
  }

  lemma {:induction false} KeyedIff(task: TaskId, args: seq<Arg>)
    ensures Keyed(args) <==> EdgesOf(task, args).Some?
    decreases |args|
  {
    if |args| >= 2 {
      var rest := args[2..];
      KeyedIff(task, rest);
      if Keyed(rest) && IsKey(args[0]) {
        forall i | 0 <= i < |args| - 1 && i % 2 == 0 ensures IsKey(args[i]) {
          if i >= 2 { assert IsKey(rest[i - 2]); }
        }
      }
      if Keyed(args) {
        forall i | 0 <= i < |rest| - 1 && i % 2 == 0 ensures IsKey(rest[i]) { assert IsKey(args[i + 2]); }
      }
    }
  }

  /** A key and its value ask for an edge: to an event of the same task, unless it is given as a
      context. */
  ghost predicate Asks(task: TaskId, key: Arg, value: Arg, o: OpId) {
    && key == Text("Edge")
    && (value == Id(Metadata(task, o)) || value == IdPointer(Metadata(task, o))
        || (value.ContextOf? && value.md.op == o))
  }

  /** Arguments stand for exactly the edges that one of their pairs asks for. */
  lemma {:induction false} EdgesOfAre(task: TaskId, args: seq<Arg>, o: OpId)
    requires EdgesOf(task, args).Some?
    ensures o in EdgesOf(task, args).value <==>
      exists i :: 0 <= i < |args| - 1 && i % 2 == 0 && Asks(task, args[i], args[i + 1], o)
    decreases |args|
  {
    if |args| < 2 {
    } else {
      var rest := args[2..];
      EdgesOfAre(task, rest, o);
      assert o in EdgeOf(task, args[0], args[1]) <==> Asks(task, args[0], args[1], o);
      if o in EdgesOf(task, rest).value {
        var i :| 0 <= i < |rest| - 1 && i % 2 == 0 && Asks(task, rest[i], rest[i + 1], o);
        assert Asks(task, args[i + 2], args[i + 2 + 1], o);
      }
      if i :| 0 <= i < |args| - 1 && i % 2 == 0 && Asks(task, args[i], args[i + 1], o) {
        if i >= 2 { assert Asks(task, rest[i - 2], rest[i - 2 + 1], o); }
      }
    }
  }
}
