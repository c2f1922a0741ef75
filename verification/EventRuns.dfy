/** Whole runs of an EventProcessor: ticks, insertions, marks and KillAllEvents in any order. */
module EventRuns {
  import opened EventQueue
  import opened EventLoop

  /** What the outside does to a processor; a tick comes with a bound on the rounds of its loop. */
  datatype Op = Tick(diff: nat, rounds: nat) | Insert(add: Add) | Mark(id: EventId) | KillAll(force: bool)

  /** The 64-bit clock. */
  function Later(time: nat, diff: nat): nat {
    (time + diff) % 0x1_0000_0000_0000_0000
  }

  /** The slots KillAllEvents removes, and those it leaves, in order. */
  function Chosen(q: seq<Slot>, gone: bool, force: bool, deletable: EventId -> bool): seq<Slot> {
    if q == [] then []
    else (if (force || deletable(q[0].id)) == gone then [q[0]] else []) + Chosen(q[1..], gone, force, deletable)
  }

  function IdsOf(q: seq<Slot>): set<EventId> {
    set i | 0 <= i < |q| :: q[i].id
  }

  function KilledEntries(q: seq<Slot>): (log: seq<Entry>)
    ensures |log| == |q|
  {
    seq(|q|, i requires 0 <= i < |q| => Killed(q[i]))
  }

  function Apply(s: State, op: Op, script: Script, deletable: EventId -> bool): (State, seq<Entry>) {
    match op
    case Tick(diff, rounds) => Drain(s.(time := Later(s.time, diff)), script, rounds)
    case Insert(a) => (Added(s, a), [])
    case Mark(id) => (s.(toAbort := s.toAbort + {id}), [])
    case KillAll(force) =>
      (s.(queue := Chosen(s.queue, false, force, deletable), toAbort := s.toAbort + IdsOf(s.queue)),
       KilledEntries(Chosen(s.queue, true, force, deletable)))
  }

  function Run(s: State, ops: seq<Op>, script: Script, deletable: EventId -> bool): (State, seq<Entry>)
    decreases |ops|
  {
    if ops == [] then (s, [])
    else
      var (next, log) := Apply(s, ops[0], script, deletable);
      var (last, rest) := Run(next, ops[1..], script, deletable);
      (last, log + rest)
  }

  /** Every tick of the run is given the rounds its loop needs to end. */
  predicate Finished(s: State, ops: seq<Op>, script: Script, deletable: EventId -> bool)
    decreases |ops|
  {
    ops == [] ||
    var next := Apply(s, ops[0], script, deletable).0;
    (ops[0].Tick? ==> !Due(next)) && Finished(next, ops[1..], script, deletable)
  }

  /** The clock never wraps and the outside adds events only at times later than the current time. */
  predicate Timely(time: nat, ops: seq<Op>)
    decreases |ops|
  {
    ops == [] ||
    match ops[0]
    case Tick(diff, _) => time + diff < 0x1_0000_0000_0000_0000 && Timely(time + diff, ops[1..])
    case Insert(a) => a.time > time && Timely(time, ops[1..])
    case _ => Timely(time, ops[1..])
  }

  /** The due times at which entries of a log were handled in their turn all lie in (low, high], in order. */
  predicate Handled(log: seq<Entry>, low: nat, high: nat) {
    && (forall i :: 0 <= i < |log| && !log[i].Killed? ==> low < log[i].slot.time <= high)
    && forall i, j :: 0 <= i < j < |log| && !log[i].Killed? && !log[j].Killed? ==> log[i].slot.time <= log[j].slot.time
  }

  /** Between two operations: the queue is in order and everything in it is still to come. */
  predicate Settled(s: State) {
    Sorted(s.queue) && !Due(s)
  }

  predicate NoneBefore(q: seq<Slot>, t: nat) {
    forall i :: 0 <= i < |q| ==> q[i].time >= t
  }

  lemma {:induction false} ChosenBounded(q: seq<Slot>, gone: bool, force: bool, deletable: EventId -> bool, t: nat)
    requires NoneBefore(q, t)
    ensures NoneBefore(Chosen(q, gone, force, deletable), t)
  {
    if q != [] {
      ChosenBounded(q[1..], gone, force, deletable, t);
    }
  }

  lemma {:induction false} ChosenSorted(q: seq<Slot>, gone: bool, force: bool, deletable: EventId -> bool)
    requires Sorted(q)
    ensures Sorted(Chosen(q, gone, force, deletable))
  {
    if q != [] {
      ChosenSorted(q[1..], gone, force, deletable);
      ChosenBounded(q[1..], gone, force, deletable, q[0].time);
    }
  }

  lemma HandledConcat(a: seq<Entry>, b: seq<Entry>, low: nat, mid: nat, high: nat)
    requires low <= mid <= high && Handled(a, low, mid) && Handled(b, mid, high)
    ensures Handled(a + b, low, high)
  {
  }

  lemma PrefixHandled(q: seq<Slot>, n: nat, log: seq<Entry>, low: nat, high: nat)
    requires Sorted(q) && n <= |q| && SlotsOf(log) == q[..n]
    requires q != [] ==> low < q[0].time
    requires forall i :: 0 <= i < n ==> q[i].time <= high
    ensures Handled(log, low, high)
  {
    forall i | 0 <= i < |log|
      ensures log[i].slot == q[i]
    {
      assert SlotsOf(log)[i] == log[i].slot;
    }
  }

  lemma TickInOrder(s: State, diff: nat, n: nat, script: Script)
    requires Settled(s) && s.time + diff < 0x1_0000_0000_0000_0000
    requires EndsWithin(s.(time := s.time + diff), script, n)
    requires AddedLater(Drain(s.(time := s.time + diff), script, n).1)
    ensures var (next, log) := Drain(s.(time := s.time + diff), script, n);
            next.time == s.time + diff && Settled(next) && Handled(log, s.time, next.time)
  {
    hide Drain, PlaceAll, DueCount, SlotsOf, Handled, AddedLater;
    var now := s.(time := s.time + diff);
    var due := DueCount(s.queue, now.time);
    DrainHandlesDue(now, script, n);
    DrainSorted(now, script, n);
    DrainMarks(now, script, n);
    PrefixHandled(s.queue, due, Drain(now, script, n).1, s.time, now.time);
  }

  lemma InsertInOrder(s: State, a: Add)
    requires Settled(s) && a.time > s.time
    ensures Settled(Added(s, a))
  {
    hide Place, DueCount;
    PlaceSorted(s.queue, SlotOf(a));
    PlacedAtUpperBound(s.queue, SlotOf(a));
  }

  lemma KillInOrder(s: State, force: bool, deletable: EventId -> bool)
    requires Settled(s)
    ensures var q := Chosen(s.queue, false, force, deletable); Sorted(q) && (q == [] || q[0].time > s.time)
  {
    hide Chosen;
    ChosenSorted(s.queue, false, force, deletable);
    ChosenBounded(s.queue, false, force, deletable, s.time + 1);
  }

  lemma KillsHandleNothing(q: seq<Slot>, t: nat)
    ensures Handled(KilledEntries(q), t, t)
  {
  }

  lemma OpInOrder(s: State, op: Op, script: Script, deletable: EventId -> bool)
    requires Settled(s) && Timely(s.time, [op])
    requires AddedLater(Apply(s, op, script, deletable).1)
    requires op.Tick? ==> !Due(Apply(s, op, script, deletable).0)
    ensures var (next, log) := Apply(s, op, script, deletable);
            && next.time == (if op.Tick? then s.time + op.diff else s.time)
            && Settled(next) && Handled(log, s.time, next.time)
  {
    hide Drain, Place, Chosen, Handled, KilledEntries, AddedLater, Sorted, IdsOf;
    NothingHandled(s.time);
    match op
    case Tick(diff, rounds) =>
      TickInOrder(s, diff, rounds, script);
    case Insert(a) =>
      InsertInOrder(s, a);
    case Mark(_) =>
    case KillAll(force) =>
      KillInOrder(s, force, deletable);
      KillsHandleNothing(Chosen(s.queue, true, force, deletable), s.time);
  }

  /**
   * Over whole runs in which the outside and the executed events add only later ones and every tick ends, the due times
   * of handled events never go back, and nothing due is left behind.
   */
  lemma {:induction false} RunInOrder(s: State, ops: seq<Op>, script: Script, deletable: EventId -> bool)
    requires Settled(s) && Timely(s.time, ops) && Finished(s, ops, script, deletable)
    requires AddedLater(Run(s, ops, script, deletable).1)
    ensures var (last, log) := Run(s, ops, script, deletable);
            s.time <= last.time && Settled(last) && Handled(log, s.time, last.time)
    decreases |ops|
  {
    hide Apply, Settled, Handled, AddedLater;
    if ops == [] {
      NothingHandled(s.time);
    } else {
      var (next, log) := Apply(s, ops[0], script, deletable);
      var (last, rest) := Run(next, ops[1..], script, deletable);
      FirstIsTimely(s.time, ops);
      LaterConcat(log, rest);
      OpInOrder(s, ops[0], script, deletable);
      RunInOrder(next, ops[1..], script, deletable);
      HandledConcat(log, rest, s.time, next.time, last.time);
    }
  }

  lemma NothingHandled(t: nat)
    ensures Handled([], t, t)
  {
  }

  lemma FirstIsTimely(time: nat, ops: seq<Op>)
    requires ops != [] && Timely(time, ops)
    ensures Timely(time, [ops[0]]) && Timely(if ops[0].Tick? then time + ops[0].diff else time, ops[1..])
  {
    assert [ops[0]][1..] == [];
  }

  // Conservation.

  lemma {:induction false} AddsOfConcat(a: seq<Entry>, b: seq<Entry>)
    ensures AddsOf(a + b) == AddsOf(a) + AddsOf(b)
  {
    if a == [] {
      assert a + b == b;
    } else {
      assert (a + b)[1..] == a[1..] + b;
      AddsOfConcat(a[1..], b);
    }
  }

  lemma {:induction false} ChosenSplits(q: seq<Slot>, force: bool, deletable: EventId -> bool)
    ensures multiset(q) == multiset(Chosen(q, true, force, deletable)) + multiset(Chosen(q, false, force, deletable))
  {
    if q != [] {
      ChosenSplits(q[1..], force, deletable);
      assert q == [q[0]] + q[1..];
    }
  }

  /** What the outside inserted. */
  function Inserted(ops: seq<Op>): seq<Add> {
    if ops == [] then [] else (if ops[0].Insert? then [ops[0].add] else []) + Inserted(ops[1..])
  }

  lemma {:induction false} KilledAddNothing(q: seq<Slot>)
    ensures SlotsOf(KilledEntries(q)) == q && AddsOf(KilledEntries(q)) == []
  {
    if q != [] {
      KilledAddNothing(q[1..]);
      assert KilledEntries(q)[1..] == KilledEntries(q[1..]);
    }
  }

  lemma OneInserted(op: Op)
    ensures Inserted([op]) == (if op.Insert? then [op.add] else [])
    ensures op.Insert? ==> SlotBag([op.add]) == multiset{SlotOf(op.add)}
  {
    assert [op][1..] == [];
    assert op.Insert? ==> [op.add][1..] == [];
  }

  lemma OpConserves(s: State, op: Op, script: Script, deletable: EventId -> bool)
    ensures var (next, log) := Apply(s, op, script, deletable);
            multiset(s.queue) + SlotBag(Inserted([op])) + SlotBag(AddsOf(log))
            == multiset(SlotsOf(log)) + multiset(next.queue)
  {
    hide Drain, PlaceAll, Place, Chosen, SlotBag, AddsOf, SlotsOf, KilledEntries, Inserted;
    OneInserted(op);
    NothingInLog();
    match op
    case Tick(diff, rounds) =>
      DrainConserves(s.(time := Later(s.time, diff)), script, rounds);
    case Insert(a) =>
      PlaceKeepsAll(s.queue, SlotOf(a));
    case Mark(_) =>
    case KillAll(force) =>
      ChosenSplits(s.queue, force, deletable);
      KilledAddNothing(Chosen(s.queue, true, force, deletable));
  }

  lemma Balance(q: multiset<Slot>, i: multiset<Slot>, a: multiset<Slot>, l: multiset<Slot>, mid: multiset<Slot>,
                i': multiset<Slot>, a': multiset<Slot>, l': multiset<Slot>, end: multiset<Slot>)
    requires q + i + a == l + mid && mid + i' + a' == l' + end
    ensures q + (i + i') + (a + a') == (l + l') + end
  {
    calc {
      q + (i + i') + (a + a');
      (q + i + a) + (i' + a');
      (l + mid) + (i' + a');
      l + (mid + i' + a');
      l + (l' + end);
    }
  }

  /** No event is lost or handled twice: what was queued or added is handled once or still queued. */
  lemma {:induction false} RunConserves(s: State, ops: seq<Op>, script: Script, deletable: EventId -> bool)
    ensures var (last, log) := Run(s, ops, script, deletable);
            multiset(s.queue) + SlotBag(Inserted(ops)) + SlotBag(AddsOf(log))
            == multiset(SlotsOf(log)) + multiset(last.queue)
    decreases |ops|
  {
    hide Apply, SlotBag, AddsOf, SlotsOf;
    NothingInLog();
    if ops != [] {
      var (next, log) := Apply(s, ops[0], script, deletable);
      var (last, rest) := Run(next, ops[1..], script, deletable);
      OpConserves(s, ops[0], script, deletable);
      RunConserves(next, ops[1..], script, deletable);
      AddsOfConcat(log, rest);
      SlotBagConcat(AddsOf(log), AddsOf(rest));
      OneInserted(ops[0]);
      SlotBagConcat(Inserted([ops[0]]), Inserted(ops[1..]));
      SlotsOfConcat(log, rest);
      assert Inserted(ops) == Inserted([ops[0]]) + Inserted(ops[1..]);
      Balance(multiset(s.queue), SlotBag(Inserted([ops[0]])), SlotBag(AddsOf(log)), multiset(SlotsOf(log)),
              multiset(next.queue), SlotBag(Inserted(ops[1..])), SlotBag(AddsOf(rest)), multiset(SlotsOf(rest)),
              multiset(last.queue));
    }
  }

  lemma SlotsOfConcat(a: seq<Entry>, b: seq<Entry>)
    ensures SlotsOf(a + b) == SlotsOf(a) + SlotsOf(b)
  {
  }

  // Abortion is final.

  lemma OpMarks(s: State, op: Op, script: Script, deletable: EventId -> bool)
    ensures var (next, log) := Apply(s, op, script, deletable);
            && s.toAbort <= next.toAbort
            && forall i :: 0 <= i < |log| && log[i].Ran? ==> log[i].slot.id !in s.toAbort
  {
    hide Drain, Place, Chosen, Marked;
    if op.Tick? {
      DrainMarks(s.(time := Later(s.time, op.diff)), script, op.rounds);
    }
  }

  /** Marks are never taken back, so a marked event is never executed again in any run. */
  lemma {:induction false} MarkedNeverRun(s: State, ops: seq<Op>, script: Script, deletable: EventId -> bool)
    ensures var (last, log) := Run(s, ops, script, deletable);
            && s.toAbort <= last.toAbort
            && forall i :: 0 <= i < |log| && log[i].Ran? ==> log[i].slot.id !in s.toAbort
    decreases |ops|
  {
    hide Apply;
    if ops != [] {
      OpMarks(s, ops[0], script, deletable);
      MarkedNeverRun(Apply(s, ops[0], script, deletable).0, ops[1..], script, deletable);
    }
  }
}
