/** The capped store of measurements, and the copies flushed from it. */
module Measurements {

  const OTHER_PREFIX := "other&"

  type Id = string

  datatype Total = Total(count: int, sum: real)

  function Plus(a: Total, b: Total): Total {
    Total(a.count + b.count, a.sum + b.sum)
  }

  /** A store: the totals by ID; and the names counted against the capacity, which a new one
      replaces only when the store is next flushed. */
  datatype Store = Store(totals: map<Id, Total>, names: set<Id>, currCap: int, nextCap: int, overflow: bool)

  predicate IsOther(id: Id) {
    OTHER_PREFIX <= id
  }

  predicate WithinLimit(s: Store, id: Id) {
    id in s.names || |s.names| < s.currCap
  }

  /** Whether a record is accepted: there is a measurement to add to, or room for a new one, or
      it is one of the others, which are not counted. */
  predicate Accepts(s: Store, id: Id) {
    id in s.totals || IsOther(id) || WithinLimit(s, id)
  }

  function Recorded(s: Store, id: Id, t: Total): Store {
    if id in s.totals then s.(totals := s.totals[id := Plus(s.totals[id], t)])
    else if IsOther(id) then s.(totals := s.totals[id := Plus(Total(0, 0.0), t)])
    else if WithinLimit(s, id) then s.(totals := s.totals[id := Plus(Total(0, 0.0), t)], names := s.names + {id})
    else s.(overflow := true)
  }

  /** Several IDs are recorded one by one, up to the first that is refused. */
  function RecordedAll(s: Store, ids: seq<Id>, t: Total): Store
    decreases |ids|
  {
    if ids == [] then s
    else if Accepts(s, ids[0]) then RecordedAll(Recorded(s, ids[0], t), ids[1..], t)
    else Recorded(s, ids[0], t)
  }

  predicate AcceptsAll(s: Store, ids: seq<Id>, t: Total)
    decreases |ids|
  {
    ids == [] || (Accepts(s, ids[0]) && AcceptsAll(Recorded(s, ids[0], t), ids[1..], t))
  }

  /** After a flush; an empty store is not flushed, and keeps its capacity. */
  function Flushed(s: Store): Store {
    if s.totals == map[] then s else Store(map[], {}, s.nextCap, s.nextCap, false)
  }

  function NewStore(cap: int): Store {
    Store(map[], {}, cap, cap, false)
  }

  class Measurement {
    var count: int
    var sum: real

    constructor ()
      ensures count == 0 && sum == 0.0
    {
      count, sum := 0, 0.0;
    }

    function Value(): Total
      reads this
    {
      Total(count, sum)
    }
  }

  /** A map of measurements, which the store and a copy of it can share. */
  class Table {
    var entries: map<Id, Measurement>

    constructor ()
      ensures entries == map[]
    {
      entries := map[];
    }
  }

  function Held(entries: map<Id, Measurement>): set<Measurement> {
    set id | id in entries :: entries[id]
  }

  /** Each ID has a measurement of its own. */
  predicate Separate(entries: map<Id, Measurement>) {
    forall a, b | a in entries && b in entries && a != b :: entries[a] != entries[b]
  }

  function Totals(entries: map<Id, Measurement>): map<Id, Total>
    reads Held(entries)
  {
    map id | id in entries :: entries[id].Value()
  }

  class TransMap {
    var transactionNames: set<Id>
    var currCap: int
    var nextCap: int
    var overflow: bool

    constructor (cap: int)
      ensures transactionNames == {} && currCap == nextCap == cap && !overflow
    {
      transactionNames, currCap, nextCap, overflow := {}, cap, cap, false;
    }

    method SetCap(cap: int)
      modifies this`nextCap
      ensures nextCap == cap
    {
      nextCap := cap;
    }

    method Reset()
      modifies this
      ensures transactionNames == {} && currCap == nextCap == old(nextCap) && !overflow
    {
      transactionNames := {};
      currCap := nextCap;
      overflow := false;
    }

    /** Whether a name is stored, or can still be; one that cannot is noted as an overflow. */
    method IsWithinLimit(name: Id) returns (ok: bool)
      modifies this`transactionNames, this`overflow
      ensures ok <==> name in old(transactionNames) || |old(transactionNames)| < currCap
      ensures transactionNames == if ok then old(transactionNames) + {name} else old(transactionNames)
      ensures overflow == (old(overflow) || !ok)
    {
      if name !in transactionNames {
        if |transactionNames| < currCap {
          transactionNames := transactionNames + {name};
          return true;
        }
        overflow := true;
        return false;
      }
      assert transactionNames + {name} == transactionNames;
      return true;
    }
  }

  class Measurements {
    var m: Table
    const transMap: TransMap

    ghost predicate Valid()
      reads this, m
    {
      Separate(m.entries)
    }

    function Abs(): Store
      reads this, m, transMap, Held(m.entries)
    {
      Store(Totals(m.entries), transMap.transactionNames, transMap.currCap, transMap.nextCap, transMap.overflow)
    }

    constructor (maxCount: int)
      ensures Valid() && Abs() == NewStore(maxCount) && fresh(m) && fresh(transMap)
    {
      m := new Table();
      transMap := new TransMap(maxCount);
    }

    method SetCap(cap: int)
      requires Valid()
      modifies transMap`nextCap
      ensures Valid() && Abs() == old(Abs()).(nextCap := cap)
    {
      transMap.SetCap(cap);
    }

    /** The measurement of an ID, a new one if there is room, or null. */
    method Find(id: Id) returns (me: Measurement?)
      requires Valid()
      modifies m, transMap`transactionNames, transMap`overflow
      ensures Valid() && (me == null <==> !Accepts(old(Abs()), id))
      ensures me != null ==> id in m.entries && m.entries[id] == me
      ensures me != null && id !in old(m.entries) ==> fresh(me)
      ensures Totals(m.entries) == if me == null || id in old(m.entries) then old(Totals(m.entries))
                                   else old(Totals(m.entries))[id := Total(0, 0.0)]
      ensures m.entries == if me == null || id in old(m.entries) then old(m.entries) else old(m.entries)[id := me]
      ensures var counted := id !in old(m.entries) && !IsOther(id);
        && transMap.transactionNames == (if counted && me != null then old(transMap.transactionNames) + {id}
                                         else old(transMap.transactionNames))
        && transMap.overflow == (old(transMap.overflow) || (counted && me == null))
    {
      ghost var before := Totals(m.entries);
      assert before.Keys == m.entries.Keys;
      if id in m.entries {
        return m.entries[id];
      }
      var admitted := OTHER_PREFIX <= id;
      if !admitted {
        admitted := transMap.IsWithinLimit(id);
      }
      assert Totals(m.entries) == before;
      if !admitted {
        return null;
      }
      me := new Measurement();
      m.entries := m.entries[id := me];
      assert Totals(m.entries) == before[id := Total(0, 0.0)];
    }

    method Add(id: Id, me: Measurement, value: real, count: int)
      requires Valid() && id in m.entries && m.entries[id] == me
      modifies me
      ensures Totals(m.entries) == old(Totals(m.entries))[id := Plus(old(me.Value()), Total(count, value))]
    {
      ghost var before := Totals(m.entries);
      me.count := me.count + count;
      me.sum := me.sum + value;
      assert Totals(m.entries) == before[id := me.Value()];
    }

    /** Records under an ID; false when that exceeds the limit. Only the table of the store, its
        measurements and names are changed. */
    method Record(id: Id, value: real, count: int) returns (ok: bool)
      requires Valid()
      modifies m, transMap`transactionNames, transMap`overflow, Held(m.entries)
      ensures Valid() && m == old(m) && fresh(Held(m.entries) - old(Held(m.entries)))
      ensures ok <==> Accepts(old(Abs()), id)
      ensures Abs() == Recorded(old(Abs()), id, Total(count, value))
    {
      hide IsOther, Plus, WithinLimit, Separate;
      ghost var before := Abs();
      assert before.totals.Keys == m.entries.Keys;
      var me := Find(id);
      if me == null {
        return false;
      }
      assert Totals(m.entries)[id] == me.Value();
      Add(id, me, value, count);
      ghost var t := Plus(if id in before.totals then before.totals[id] else Total(0, 0.0), Total(count, value));
      assert Totals(m.entries) == before.totals[id := t];
      return true;
    }

    /** Records under each of several IDs; those before one that exceeds the limit stay recorded. */
    method RecordAll(ids: seq<Id>, value: real, count: int) returns (ok: bool)
      requires Valid()
      modifies m, transMap`transactionNames, transMap`overflow, Held(m.entries)
      ensures Valid() && m == old(m) && fresh(Held(m.entries) - old(Held(m.entries)))
      ensures ok <==> AcceptsAll(old(Abs()), ids, Total(count, value))
      ensures Abs() == RecordedAll(old(Abs()), ids, Total(count, value))
    {
      hide Recorded, Accepts, Separate;
      ghost var t := Total(count, value);
      assert ids[0..] == ids;
      for i := 0 to |ids|
        invariant Valid() && m == old(m) && fresh(Held(m.entries) - old(Held(m.entries)))
        invariant RecordedAll(Abs(), ids[i..], t) == RecordedAll(old(Abs()), ids, t)
        invariant AcceptsAll(Abs(), ids[i..], t) <==> AcceptsAll(old(Abs()), ids, t)
      {
        assert ids[i..][1..] == ids[i + 1..];
        var accepted := Record(ids[i], value, count);
        if !accepted {
          return false;
        }
      }
      return true;
    }

    /** Flushes: the copy is a table of its own from now on, and the store starts a new one. */
    method CopyAndReset() returns (copy: Table?)
      requires Valid()
      modifies this`m, transMap
      ensures Valid() && Abs() == Flushed(old(Abs()))
      ensures copy == null <==> old(m.entries) == map[]
      ensures copy == null ==> m == old(m)
      ensures copy != null ==> copy == old(m) && Totals(copy.entries) == old(Abs()).totals
      ensures copy != null ==> fresh(m) && m.entries == map[]
      ensures copy != null ==> transMap.transactionNames == {} && !transMap.overflow
      ensures copy != null ==> transMap.currCap == transMap.nextCap == old(transMap.nextCap)
    {
      ghost var before := Totals(m.entries);
      assert before.Keys == m.entries.Keys;
      if |m.entries| == 0 {
        return null;
      }
      copy := m;
      m := new Table();
      transMap.Reset();
    }
  }

  // ---------------------------------------------------------------- every run

  /** The names counted are the IDs stored that are not others, and never more than the capacity
      of this cycle. */
  ghost predicate Capped(s: Store) {
    && (forall id | id in s.names :: id in s.totals && !IsOther(id))
    && (forall id | id in s.totals && !IsOther(id) :: id in s.names)
    && (|s.names| == 0 || |s.names| <= s.currCap)
  }

  datatype Op = Record(id: Id, total: Total) | SetCap(cap: int) | CopyAndReset

  /** A run: the store, the copies flushed, and the records accepted. */
  datatype Run = Run(store: Store, copies: seq<map<Id, Total>>, accepted: seq<Op>)

  function Step(r: Run, op: Op): Run {
    match op
    case Record(id, t) =>
      Run(Recorded(r.store, id, t), r.copies, if Accepts(r.store, id) then r.accepted + [op] else r.accepted)
    case SetCap(cap) => r.(store := r.store.(nextCap := cap))
    case CopyAndReset =>
      r.(store := Flushed(r.store), copies := if r.store.totals == map[] then r.copies else r.copies + [r.store.totals])
  }

  function After(r: Run, ops: seq<Op>): Run
    decreases |ops|
  {
    if ops == [] then r else After(Step(r, ops[0]), ops[1..])
  }

  const NOTHING := Total(0, 0.0)

  function TotalIn(totals: map<Id, Total>, id: Id): Total {
    if id in totals then totals[id] else NOTHING
  }

  function TotalOver(copies: seq<map<Id, Total>>, id: Id): Total {
    if copies == [] then NOTHING else Plus(TotalOver(copies[..|copies| - 1], id), TotalIn(copies[|copies| - 1], id))
  }

  function TotalAccepted(accepted: seq<Op>, id: Id): Total {
    if accepted == [] then NOTHING
    else
      var last := accepted[|accepted| - 1];
      var before := TotalAccepted(accepted[..|accepted| - 1], id);
      if last.Record? && last.id == id then Plus(before, last.total) else before
  }

  /** For an ID, what was flushed and what is stored add up to what was accepted. */
  ghost predicate Conserved(r: Run, id: Id) {
    Plus(TotalOver(r.copies, id), TotalIn(r.store.totals, id)) == TotalAccepted(r.accepted, id)
  }

  lemma RecordedStaysCapped(s: Store, id: Id, t: Total)
    requires Capped(s)
    ensures Capped(Recorded(s, id, t))
  {
  }

  lemma {:induction false} RecordedAllStaysCapped(s: Store, ids: seq<Id>, t: Total)
    requires Capped(s)
    ensures Capped(RecordedAll(s, ids, t))
    decreases |ids|
  {
    hide Capped, Recorded, Accepts;
    if ids == [] {
    } else {
      RecordedStaysCapped(s, ids[0], t);
      if Accepts(s, ids[0]) { RecordedAllStaysCapped(Recorded(s, ids[0], t), ids[1..], t); }
    }
  }

  /** The IDs that need a place among the names. */
  function New(s: Store, ids: seq<Id>): set<Id> {
    set id | id in ids && id !in s.totals && !IsOther(id)
  }

  predicate Fits(s: Store, ids: seq<Id>) {
    New(s, ids) == {} || |s.names| + |New(s, ids)| <= s.currCap
  }

  function Times(t: Total, n: nat): Total {
    if n == 0 then NOTHING else Plus(t, Times(t, n - 1))
  }

  /** What recording ids does to a store that all of them fit into. */
  ghost predicate AllIn(s: Store, ids: seq<Id>, t: Total, s': Store) {
    && s'.names == s.names + New(s, ids)
    && s'.totals.Keys == s.totals.Keys + (set id | id in ids)
    && (forall id :: TotalIn(s'.totals, id) == Plus(TotalIn(s.totals, id), Times(t, multiset(ids)[id])))
    && s'.currCap == s.currCap && s'.nextCap == s.nextCap
  }

  lemma NewOne(s: Store, x: Id)
    ensures New(s, [x]) == if x !in s.totals && !IsOther(x) then {x} else {}
  {
    hide IsOther;
  }

  lemma RecordedPlaces(s: Store, x: Id, t: Total)
    requires Capped(s) && Accepts(s, x)
    ensures var s' := Recorded(s, x, t);
      && s'.totals.Keys == s.totals.Keys + {x}
      && s'.names == s.names + New(s, [x]) && |s'.names| == |s.names| + |New(s, [x])|
      && ((New(s, [x]) == {x} && |s.names| < s.currCap) || New(s, [x]) == {})
      && s'.currCap == s.currCap && s'.nextCap == s.nextCap && s'.overflow == s.overflow
  {
    NewOne(s, x);
    hide IsOther, Plus, New;
    if x !in s.totals && !IsOther(x) {
      assert x !in s.names;
      hide Capped;
    } else {
      hide Capped;
      assert s.names + {} == s.names;
      if x in s.totals { assert s.totals.Keys + {x} == s.totals.Keys; }
    }
  }

  lemma NewWithout(s: Store, ids: seq<Id>, s': Store)
    requires ids != [] && s'.totals.Keys == s.totals.Keys + {ids[0]}
    ensures New(s, ids) == New(s, [ids[0]]) + New(s', ids[1..])
    ensures |New(s, ids)| == |New(s, [ids[0]])| + |New(s', ids[1..])|
  {
    hide IsOther;
    assert ids == [ids[0]] + ids[1..];
    assert New(s, ids) == New(s, [ids[0]]) + New(s', ids[1..]);
    assert New(s, [ids[0]]) !! New(s', ids[1..]);
  }

  lemma UnionIsAssociative<T>(a: set<T>, b: set<T>, c: set<T>)
    ensures a + (b + c) == (a + b) + c
  {
  }

  lemma FitsWithout(s: Store, ids: seq<Id>, t: Total)
    requires Capped(s) && ids != [] && Accepts(s, ids[0])
    ensures var s' := Recorded(s, ids[0], t);
      && (Fits(s, ids) <==> Fits(s', ids[1..])) && s.names + New(s, ids) == s'.names + New(s', ids[1..])
      && s'.totals.Keys == s.totals.Keys + {ids[0]} && s'.currCap == s.currCap && s'.nextCap == s.nextCap
      && s'.overflow == s.overflow
  {
    hide Capped, Accepts, Recorded, New;
    RecordedPlaces(s, ids[0], t);
    var s' := Recorded(s, ids[0], t);
    NewWithout(s, ids, s');
    UnionIsAssociative(s.names, New(s, [ids[0]]), New(s', ids[1..]));
    assert |New(s, ids)| == 0 <==> New(s, ids) == {};
    assert |New(s', ids[1..])| == 0 <==> New(s', ids[1..]) == {};
  }

  lemma PlusFacts(a: Total, b: Total, c: Total)
    ensures Plus(Plus(a, b), c) == Plus(a, Plus(b, c)) && Plus(a, NOTHING) == a && Plus(NOTHING, a) == a
  {
  }

  lemma RecordedTotal(s: Store, op: Id, t: Total, id: Id)
    ensures TotalIn(Recorded(s, op, t).totals, id)
         == if Accepts(s, op) && id == op then Plus(TotalIn(s.totals, id), t) else TotalIn(s.totals, id)
  {
    hide Plus, IsOther, WithinLimit;
    PlusFacts(NOTHING, NOTHING, t);
  }

  lemma AllInWith(s: Store, ids: seq<Id>, t: Total, s': Store)
    requires Capped(s) && ids != [] && Accepts(s, ids[0]) && AllIn(Recorded(s, ids[0], t), ids[1..], t, s')
    ensures AllIn(s, ids, t, s')
  {
    hide Plus, Recorded, Accepts, Capped, New, IsOther;
    var x, rest, s1 := ids[0], ids[1..], Recorded(s, ids[0], t);
    assert ids == [x] + rest;
    FitsWithout(s, ids, t);
    forall id ensures TotalIn(s'.totals, id) == Plus(TotalIn(s.totals, id), Times(t, multiset(ids)[id])) {
      RecordedTotal(s, x, t, id);
      assert multiset(ids)[id] == multiset(rest)[id] + (if id == x then 1 else 0);
      PlusFacts(TotalIn(s.totals, id), t, Times(t, multiset(rest)[id]));
    }
  }

  lemma {:induction false} NothingIn(s: Store, t: Total)
    ensures AllIn(s, [], t, s) && Fits(s, [])
  {
    forall id ensures TotalIn(s.totals, id) == Plus(TotalIn(s.totals, id), Times(t, multiset([])[id])) {
      PlusFacts(TotalIn(s.totals, id), NOTHING, NOTHING);
    }
    assert New(s, []) == {};
  }

  lemma RefusedDoesNotFit(s: Store, id: Id)
    requires Capped(s) && !Accepts(s, id)
    ensures !Fits(s, [id])
  {
    assert New(s, [id]) == {id};
  }

  lemma OverflowAside(s: Store, t: Total)
    ensures AllIn(s, [], t, s.(overflow := true))
  {
    NothingIn(s, t);
  }

  /** The first n of several IDs fit, the next does not, and the first n are recorded. */
  ghost predicate StopsAt(s: Store, ids: seq<Id>, t: Total, n: nat) {
    && n <= |ids| && Fits(s, ids[..n]) && (n < |ids| ==> !Fits(s, ids[..n + 1]))
    && (AcceptsAll(s, ids, t) <==> n == |ids|)
    && var s' := RecordedAll(s, ids, t); AllIn(s, ids[..n], t, s') && s'.overflow == (s.overflow || n < |ids|)
  }

  lemma StopsAtOnce(s: Store, ids: seq<Id>, t: Total)
    requires Capped(s) && (ids == [] || !Accepts(s, ids[0]))
    ensures StopsAt(s, ids, t, 0)
  {
    hide Capped, IsOther, AllIn, Fits, Plus;
    NothingIn(s, t);
    assert ids[..0] == [];
    if ids != [] {
      RefusedDoesNotFit(s, ids[0]);
      assert ids[..1] == [ids[0]];
      assert RecordedAll(s, ids, t) == s.(overflow := true);
      OverflowAside(s, t);
    }
  }

  lemma StopsLater(s: Store, ids: seq<Id>, t: Total, k: nat)
    requires Capped(s) && ids != [] && Accepts(s, ids[0]) && StopsAt(Recorded(s, ids[0], t), ids[1..], t, k)
    ensures StopsAt(s, ids, t, k + 1)
  {
    hide Capped, Recorded, Accepts, AllIn, Fits, Plus, New;
    var n, rest := k + 1, ids[1..];
    assert ids[..n][1..] == rest[..k];
    FitsWithout(s, ids[..n], t);
    if n < |ids| {
      assert ids[..n + 1][1..] == rest[..k + 1];
      FitsWithout(s, ids[..n + 1], t);
    }
    AllInWith(s, ids[..n], t, RecordedAll(s, ids, t));
  }

  /** Several IDs are recorded up to the first for which there is no room: as many as fit, each as
      often as it comes; the one refused is noted as an overflow. */
  lemma {:induction false} AsManyAsFit(s: Store, ids: seq<Id>, t: Total) returns (n: nat)
    requires Capped(s)
    ensures StopsAt(s, ids, t, n)
    decreases |ids|
  {
    hide Capped, Accepts, Recorded, StopsAt;
    if ids == [] || !Accepts(s, ids[0]) {
      n := 0;
      StopsAtOnce(s, ids, t);
    } else {
      RecordedStaysCapped(s, ids[0], t);
      var k := AsManyAsFit(Recorded(s, ids[0], t), ids[1..], t);
      n := k + 1;
      StopsLater(s, ids, t, k);
    }
  }

  lemma StepStaysCapped(r: Run, op: Op)
    requires Capped(r.store)
    ensures Capped(Step(r, op).store)
  {
    if op.Record? { RecordedStaysCapped(r.store, op.id, op.total); }
  }

  lemma AcceptedOne(accepted: seq<Op>, op: Op, id: Id)
    requires op.Record?
    ensures TotalAccepted(accepted + [op], id)
         == if id == op.id then Plus(TotalAccepted(accepted, id), op.total) else TotalAccepted(accepted, id)
  {
    hide Plus;
    assert (accepted + [op])[..|accepted|] == accepted;
  }

  lemma RecordConserves(r: Run, op: Op, id: Id)
    requires Conserved(r, id) && op.Record?
    ensures Conserved(Step(r, op), id)
  {
    hide Plus, TotalIn, TotalOver, TotalAccepted, Recorded, Accepts;
    RecordedTotal(r.store, op.id, op.total, id);
    AcceptedOne(r.accepted, op, id);
    PlusFacts(TotalOver(r.copies, id), TotalIn(r.store.totals, id), op.total);
  }

  lemma FlushConserves(r: Run, id: Id)
    requires Conserved(r, id)
    ensures Conserved(Step(r, CopyAndReset), id)
  {
    hide Plus, TotalAccepted;
    var copies := r.copies + [r.store.totals];
    assert copies[..|copies| - 1] == r.copies;
    PlusFacts(Plus(TotalOver(r.copies, id), TotalIn(r.store.totals, id)), NOTHING, NOTHING);
  }

  lemma SetCapConserves(r: Run, cap: int, id: Id)
    requires Conserved(r, id)
    ensures Conserved(Step(r, SetCap(cap)), id)
  {
  }

  lemma {:induction false} RunConserves(r: Run, ops: seq<Op>, id: Id)
    requires Conserved(r, id)
    ensures Conserved(After(r, ops), id)
    decreases |ops|
  {
    hide Conserved, Step;
    if ops == [] {
    } else {
      var op := ops[0];
      match op {
        case Record(_, _) => RecordConserves(r, op, id);
        case CopyAndReset => FlushConserves(r, id);
        case SetCap(cap) => SetCapConserves(r, cap, id);
      }
      RunConserves(Step(r, op), ops[1..], id);
    }
  }

  lemma {:induction false} RunStaysCapped(r: Run, ops: seq<Op>)
    requires Capped(r.store)
    ensures Capped(After(r, ops).store)
    decreases |ops|
  {
    hide Capped, Step;
    if ops == [] {
    } else {
      StepStaysCapped(r, ops[0]);
      RunStaysCapped(Step(r, ops[0]), ops[1..]);
    }
  }

  lemma NothingYet(r: Run, id: Id)
    requires r.store.totals == map[] && r.store.names == {} && r.copies == [] && r.accepted == []
    ensures Capped(r.store) && Conserved(r, id)
  {
  }

  /** In every run of a new store, the IDs stored but for the others are the names counted, and
      not more than the capacity; and for every ID, the totals of all copies flushed and of
      the store add up to the records accepted. */
  lemma EveryRunIsCappedAndConserves(cap: int, ops: seq<Op>, id: Id)
    ensures var r := After(Run(NewStore(cap), [], []), ops);
      && (id in r.store.names <==> id in r.store.totals && !IsOther(id))
      && (|r.store.names| == 0 || |r.store.names| <= r.store.currCap)
      && Plus(TotalOver(r.copies, id), TotalIn(r.store.totals, id)) == TotalAccepted(r.accepted, id)
  {
    hide After, TotalOver, TotalAccepted, TotalIn;
    var r := Run(NewStore(cap), [], []);
    NothingYet(r, id);
    RunStaysCapped(r, ops);
    RunConserves(r, ops, id);
  }

  /** A capacity set while the store is empty is not in force until something is flushed. */
  lemma CapWaitsForFlush(s: Store, cap: int)
    requires s.totals == map[]
    ensures Flushed(s.(nextCap := cap)).currCap == s.currCap
  {
  }

  // ---------------------------------------------------------------- runs of the object

  /** Tables that were flushed share nothing with the table of the store. */
  ghost predicate Apart(copies: seq<Table>, m: Table)
    reads copies, m
  {
    forall k | 0 <= k < |copies| :: copies[k] != m && Held(copies[k].entries) !! Held(m.entries)
  }

  /** Each table holds the totals of a copy. */
  ghost predicate Hold(copies: seq<Table>, totals: seq<map<Id, Total>>)
    reads copies, set k, c | 0 <= k < |copies| && c in Held(copies[k].entries) :: c
  {
    |copies| == |totals| && forall k | 0 <= k < |copies| :: Totals(copies[k].entries) == totals[k]
  }

  /** One operation, on the object. */
  method Apply(store: Measurements, op: Op) returns (copy: Table?)
    requires store.Valid()
    modifies store, store.m, store.transMap, Held(store.m.entries)
    ensures store.Valid() && store.Abs() == Step(Run(old(store.Abs()), [], []), op).store
    ensures copy != null ==> op.CopyAndReset? && copy == old(store.m) && copy.entries == old(store.m.entries)
    ensures copy != null ==> fresh(store.m) && store.m.entries == map[]
    ensures copy != null ==> Totals(copy.entries) == old(store.Abs()).totals
    ensures copy == null ==> store.m == old(store.m) && fresh(Held(store.m.entries) - old(Held(store.m.entries)))
    ensures copy == null <==> !op.CopyAndReset? || old(store.m.entries) == map[]
  {
    hide Recorded, Accepts;
    copy := null;
    match op {
      case Record(id, total) =>
        var _ := store.Record(id, total.sum, total.count);
      case SetCap(cap) =>
        store.SetCap(cap);
      case CopyAndReset =>
        copy := store.CopyAndReset();
    }
  }

  /** What was flushed stays as it is, whatever is recorded, set or flushed later. */
  method FlushThenRun(store: Measurements, ops: seq<Op>) returns (copy: Table?)
    requires store.Valid()
    modifies store, store.m, store.transMap, Held(store.m.entries)
    ensures copy != null ==> copy.entries == old(store.m.entries) && Totals(copy.entries) == old(store.Abs()).totals
  {
    hide Step, Separate;
    copy := store.CopyAndReset();
    if copy == null {
      return;
    }
    for i := 0 to |ops|
      invariant store.Valid() && fresh(store.m) && fresh(Held(store.m.entries))
      invariant copy.entries == old(store.m.entries) && Totals(copy.entries) == old(store.Abs()).totals
    {
      var _ := Apply(store, ops[i]);
    }
  }

  /** One operation after others, with the copies flushed so far. */
  method ApplyNext(store: Measurements, op: Op, copies: seq<Table>, ghost r: Run) returns (copies': seq<Table>)
    requires store.Valid() && Apart(copies, store.m) && Hold(copies, r.copies) && r.store == store.Abs()
    modifies store, store.m, store.transMap, Held(store.m.entries)
    ensures store.Valid() && Apart(copies', store.m)
    ensures Hold(copies', Step(r, op).copies) && Step(r, op).store == store.Abs()
    ensures store.m == old(store.m) || fresh(store.m)
    ensures fresh(Held(store.m.entries) - old(Held(store.m.entries)))
  {
    hide Recorded, Accepts, Flushed, Separate;
    assert Totals(store.m.entries).Keys == store.m.entries.Keys;
    var copy := Apply(store, op);
    copies' := if copy == null then copies else copies + [copy];
  }

  /** A run on the object is the run on its value: in the end every copy flushed on the way still
      has the totals it was flushed with, which is what the conservation of totals is about. */
  method RunAll(store: Measurements, ops: seq<Op>) returns (copies: seq<Table>)
    requires store.Valid()
    modifies store, store.m, store.transMap, Held(store.m.entries)
    ensures store.Valid()
    ensures var r := After(Run(old(store.Abs()), [], []), ops); store.Abs() == r.store && Hold(copies, r.copies)
  {
    hide Step, Separate;
    copies := [];
    ghost var start := Run(store.Abs(), [], []);
    ghost var r := start;
    assert ops[0..] == ops;
    for i := 0 to |ops|
      invariant store.Valid() && (store.m == old(store.m) || fresh(store.m))
      invariant fresh(Held(store.m.entries) - old(Held(store.m.entries)))
      invariant Apart(copies, store.m) && Hold(copies, r.copies)
      invariant r.store == store.Abs() && After(r, ops[i..]) == After(start, ops)
    {
      assert ops[i..][1..] == ops[i + 1..];
      copies := ApplyNext(store, ops[i], copies, r);
      r := Step(r, ops[i]);
    }
  }
}
