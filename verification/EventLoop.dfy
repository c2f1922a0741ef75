/** The main loop of EventProcessor::Update as steps, for any behaviour of Execute: when it ends and what it does. */
module EventLoop {
  import opened EventQueue

  /** What one call of the virtual Execute does: its result, the events it adds in order, and those it marks. */
  datatype Reaction = Reaction(delete: bool, adds: seq<Add>, aborts: set<EventId>)

  /** Any behaviour of all Execute calls, by the number of the call, the event and the time passed to it. */
  type Script = (nat, EventId, nat) -> Reaction

  /** Why a slot left the queue: executed (at which time) or aborted in its turn, or deleted by KillAllEvents. */
  datatype Entry = Ran(slot: Slot, at: nat, reaction: Reaction) | Aborted(slot: Slot) | Killed(slot: Slot)

  /** The processor together with the fields of all events. */
  datatype State = State(time: nat, queue: seq<Slot>, executed: nat, toAbort: set<EventId>,
                         addTime: map<EventId, nat>, execTime: map<EventId, nat>)

  /** AddEvent. */
  function Added(s: State, a: Add): State {
    s.(queue := Place(s.queue, SlotOf(a)),
       execTime := s.execTime[a.id := a.time],
       addTime := if a.setAddTime then s.addTime[a.id := s.time] else s.addTime)
  }

  function AddedAll(s: State, adds: seq<Add>): (r: State)
    ensures r.time == s.time && r.toAbort == s.toAbort && r.executed == s.executed && r.queue == PlaceAll(s.queue, adds)
    decreases |adds|
  {
    if adds == [] then s else AddedAll(Added(s, adds[0]), adds[1..])
  }

  /** The guard of the main loop. */
  predicate Due(s: State) {
    s.queue != [] && s.queue[0].time <= s.time
  }

  /** One round of the main loop. */
  function Step(s: State, script: Script): (State, Entry)
    requires s.queue != []
  {
    var slot := s.queue[0];
    var taken := s.(queue := s.queue[1..]);
    if slot.id in s.toAbort then (taken, Aborted(slot))
    else
      var r := script(s.executed, slot.id, s.time);
      (AddedAll(taken.(toAbort := s.toAbort + r.aborts, executed := s.executed + 1), r.adds), Ran(slot, s.time, r))
  }

  /** The loop, cut off after n rounds if it has not ended by then. */
  function Drain(s: State, script: Script, n: nat): (State, seq<Entry>)
    decreases n
  {
    if n == 0 || !Due(s) then (s, [])
    else
      var (next, e) := Step(s, script);
      var (last, log) := Drain(next, script, n - 1);
      (last, [e] + log)
  }

  /** The loop has ended within n rounds. */
  predicate EndsWithin(s: State, script: Script, n: nat) {
    !Due(Drain(s, script, n).0)
  }

  function SlotsOf(log: seq<Entry>): (q: seq<Slot>)
    ensures |q| == |log|
  {
    seq(|log|, i requires 0 <= i < |log| => log[i].slot)
  }

  /** The events a log added, in order. */
  function AddsOf(log: seq<Entry>): seq<Add> {
    if log == [] then []
    else (if log[0].Ran? then log[0].reaction.adds else []) + AddsOf(log[1..])
  }

  /** The events the Execute calls of a log marked for abortion. */
  function Marked(log: seq<Entry>): set<EventId> {
    if log == [] then {}
    else (if log[0].Ran? then log[0].reaction.aborts else {}) + Marked(log[1..])
  }

  /** Every Execute call of the log added events only at times later than its own. */
  predicate AddedLater(log: seq<Entry>) {
    forall i :: 0 <= i < |log| && log[i].Ran? ==> AllLater(log[i].reaction.adds, log[i].at)
  }

  // One round, and unfolding the loop by one round.

  lemma OneEntry(e: Entry)
    ensures AddsOf([e]) == (if e.Ran? then e.reaction.adds else [])
    ensures Marked([e]) == (if e.Ran? then e.reaction.aborts else {})
  {
    assert [e][1..] == [];
  }

  lemma FirstEntry(e: Entry, log: seq<Entry>)
    ensures AddsOf([e] + log) == AddsOf([e]) + AddsOf(log) && Marked([e] + log) == Marked([e]) + Marked(log)
    ensures SlotsOf([e] + log) == [e.slot] + SlotsOf(log)
    ensures AddedLater([e] + log) <==> AddedLater([e]) && AddedLater(log)
  {
    hide AddedLater;
    assert ([e] + log)[1..] == log;
    OneEntry(e);
    LaterConcat([e], log);
  }

  lemma LaterConcat(a: seq<Entry>, b: seq<Entry>)
    ensures AddedLater(a + b) <==> AddedLater(a) && AddedLater(b)
  {
    assert forall i :: 0 <= i < |a| ==> (a + b)[i] == a[i];
    assert forall i :: 0 <= i < |b| ==> (a + b)[|a| + i] == b[i];
    assert forall i :: |a| <= i < |a + b| ==> (a + b)[i] == b[i - |a|];
  }

  lemma NothingInLog()
    ensures SlotsOf([]) == [] && AddsOf([]) == [] && SlotBag([]) == multiset{} && Marked([]) == {}
  {
  }

  lemma DrainOnce(s: State, script: Script, n: nat)
    ensures n == 0 || !Due(s) ==> Drain(s, script, n) == (s, [])
    ensures Due(s) && n > 0 ==>
              var (next, e) := Step(s, script);
              Drain(s, script, n) == (Drain(next, script, n - 1).0, [e] + Drain(next, script, n - 1).1)
  {
  }

  lemma DueMeansCount(s: State)
    ensures Due(s) <==> DueCount(s.queue, s.time) > 0
  {
  }

  /** What a round does to the queue, the marks and the clock. */
  lemma StepShape(s: State, script: Script)
    requires s.queue != []
    ensures var (next, e) := Step(s, script);
            && next.time == s.time && e.slot == s.queue[0] && !e.Killed?
            && next.queue == PlaceAll(s.queue[1..], AddsOf([e]))
            && next.toAbort == s.toAbort + Marked([e])
            && (e.Aborted? <==> s.queue[0].id in s.toAbort)
            && (e.Ran? ==> e.at == s.time && e.reaction == script(s.executed, s.queue[0].id, s.time))
  {
    hide PlaceAll;
    NoAdds(s.queue[1..]);
    OneEntry(Step(s, script).1);
  }

  // What every loop does, whatever its Execute calls do.

  /** The loop loses nothing and handles nothing twice. */
  lemma {:induction false} DrainConserves(s: State, script: Script, n: nat)
    ensures var (last, log) := Drain(s, script, n);
            multiset(s.queue) + SlotBag(AddsOf(log)) == multiset(SlotsOf(log)) + multiset(last.queue)
    decreases n
  {
    hide Step, Drain, PlaceAll, AddsOf, SlotsOf, SlotBag, Marked;
    DrainOnce(s, script, n);
    NothingInLog();
    if n > 0 && Due(s) {
      var (next, e) := Step(s, script);
      var (last, log) := Drain(next, script, n - 1);
      StepShape(s, script);
      DrainConserves(next, script, n - 1);
      FirstEntry(e, log);
      SlotBagConcat(AddsOf([e]), AddsOf(log));
      PlaceAllKeepsAll(s.queue[1..], AddsOf([e]));
      assert multiset(s.queue) == multiset{e.slot} + multiset(s.queue[1..]) by {
        assert s.queue == [e.slot] + s.queue[1..];
      }
      calc {
        multiset(s.queue) + SlotBag(AddsOf([e] + log));
        multiset{e.slot} + (multiset(next.queue) + SlotBag(AddsOf(log)));
        multiset{e.slot} + (multiset(SlotsOf(log)) + multiset(last.queue));
        multiset(SlotsOf([e] + log)) + multiset(last.queue);
      }
    }
  }

  /** A slot is aborted instead of executed exactly when its event was marked before its turn. */
  lemma {:induction false} MarkedAreAborted(s: State, script: Script, n: nat, i: nat)
    requires i < |Drain(s, script, n).1|
    ensures var log := Drain(s, script, n).1; log[i].Aborted? <==> log[i].slot.id in s.toAbort + Marked(log[..i])
    ensures !Drain(s, script, n).1[i].Killed?
    decreases n
  {
    hide Step, Drain, AddsOf, Marked, PlaceAll;
    DrainOnce(s, script, n);
    NothingInLog();
    if n > 0 && Due(s) {
      var (next, e) := Step(s, script);
      var log := Drain(next, script, n - 1).1;
      StepShape(s, script);
      assert ([e] + log)[..0] == [];
      if i > 0 {
        MarkedAreAborted(next, script, n - 1, i - 1);
        FirstEntry(e, log[..i - 1]);
        assert ([e] + log)[..i] == [e] + log[..i - 1];
      }
    }
  }

  /** The loop leaves the clock alone, only adds marks, and executes no marked event. */
  lemma {:induction false} DrainMarks(s: State, script: Script, n: nat)
    ensures var (last, log) := Drain(s, script, n);
            && last.time == s.time && last.toAbort == s.toAbort + Marked(log)
            && forall i :: 0 <= i < |log| && log[i].Ran? ==> log[i].slot.id !in s.toAbort && log[i].at == s.time
    decreases n
  {
    hide Step, Drain, AddsOf, Marked, PlaceAll;
    DrainOnce(s, script, n);
    NothingInLog();
    if n > 0 && Due(s) {
      var (next, e) := Step(s, script);
      StepShape(s, script);
      DrainMarks(next, script, n - 1);
      FirstEntry(e, Drain(next, script, n - 1).1);
    }
  }

  lemma {:induction false} DrainSorted(s: State, script: Script, n: nat)
    requires Sorted(s.queue)
    ensures Sorted(Drain(s, script, n).0.queue)
    decreases n
  {
    hide Step, Drain, PlaceAll, AddsOf, Marked;
    DrainOnce(s, script, n);
    if n > 0 && Due(s) {
      StepShape(s, script);
      PlaceAllSorted(s.queue[1..], AddsOf([Step(s, script).1]));
      DrainSorted(Step(s, script).0, script, n - 1);
    }
  }

  // Loops whose Execute calls add later events only.

  /** Then a round takes one due slot and leaves the others alone; what it adds goes behind them. */
  lemma StepTakesOne(s: State, script: Script, n: nat)
    requires 0 < n == DueCount(s.queue, s.time) && AddedLater([Step(s, script).1])
    ensures var (next, e) := Step(s, script);
            && DueCount(next.queue, s.time) == n - 1
            && next.queue[..n - 1] == s.queue[1..n]
            && next.queue[n - 1..] == PlaceAll(s.queue[n..], AddsOf([e]))
  {
    hide PlaceAll, DueCount, AddsOf, Marked, Place, Step;
    StepShape(s, script);
    var (next, e) := Step(s, script);
    var front, rest, adds := s.queue[1..n], s.queue[n..], AddsOf([e]);
    assert s.queue[1..] == front + rest;
    OneEntry(e);
    assert [e][0] == e;
    PlaceAllBehind(front, rest, adds, s.time);
    LaterStaysLater(rest, adds, s.time);
    CountOfConcat(front, PlaceAll(rest, adds), s.time);
  }

  /** The loop handles exactly the due slots, each once, in queue order, and keeps all others. */
  lemma {:induction false} DrainHandlesDue(s: State, script: Script, n: nat)
    requires EndsWithin(s, script, n) && AddedLater(Drain(s, script, n).1)
    ensures var due, (last, log) := DueCount(s.queue, s.time), Drain(s, script, n);
            SlotsOf(log) == s.queue[..due] && last.queue == PlaceAll(s.queue[due..], AddsOf(log))
    decreases n
  {
    hide Step, Drain, PlaceAll, DueCount, AddsOf, SlotsOf, Marked, AddedLater;
    DrainOnce(s, script, n);
    DueMeansCount(s);
    NothingInLog();
    if !Due(s) {
      NoAdds(s.queue);
      assert s.queue[0..] == s.queue;
    } else {
      var due := DueCount(s.queue, s.time);
      var (next, e) := Step(s, script);
      var log := Drain(next, script, n - 1).1;
      FirstEntry(e, log);
      StepShape(s, script);
      StepTakesOne(s, script, due);
      DrainHandlesDue(next, script, n - 1);
      PlaceAllConcat(s.queue[due..], AddsOf([e]), AddsOf(log));
      assert s.queue[..due] == [s.queue[0]] + s.queue[1..due];
    }
  }

  /** It takes a round for each due slot at least. */
  lemma {:induction false} EndedCounts(s: State, script: Script, n: nat)
    requires Sorted(s.queue) && EndsWithin(s, script, n)
    ensures DueCount(s.queue, s.time) <= n
    decreases n
  {
    hide Step, Drain, PlaceAll, DueCount, AddsOf, Marked, Place;
    DrainOnce(s, script, n);
    DueMeansCount(s);
    if Due(s) {
      StepShape(s, script);
      var (next, e) := Step(s, script);
      PlaceAllSorted(s.queue[1..], AddsOf([e]));
      PlaceAllCounts(s.queue[1..], AddsOf([e]), s.time);
      CountOfTail(s.queue, s.time);
      EndedCounts(next, script, n - 1);
    }
  }

  lemma CountOfTail(q: seq<Slot>, t: nat)
    requires q != [] && q[0].time <= t
    ensures DueCount(q, t) == 1 + DueCount(q[1..], t)
  {
  }

  /** A loop with n due slots ends within n rounds if and only if the Execute calls of these add later events only. */
  lemma {:induction false} EndsInDueRounds(s: State, script: Script, n: nat)
    requires Sorted(s.queue) && n == DueCount(s.queue, s.time)
    ensures EndsWithin(s, script, n) <==> AddedLater(Drain(s, script, n).1)
    decreases n
  {
    hide Step, Drain, PlaceAll, DueCount, AddsOf, Marked, AddedLater, Place;
    DrainOnce(s, script, n);
    DueMeansCount(s);
    if n == 0 {
      NothingAddedLater();
    } else {
      StepShape(s, script);
      var (next, e) := Step(s, script);
      var rest := s.queue[1..];
      FirstEntry(e, Drain(next, script, n - 1).1);
      CountOfTail(s.queue, s.time);
      PlaceAllSorted(rest, AddsOf([e]));
      PlaceAllCounts(rest, AddsOf([e]), s.time);
      LaterEntry(e);
      if AddedLater([e]) {
        StepTakesOne(s, script, n);
        EndsInDueRounds(next, script, n - 1);
      } else if EndsWithin(next, script, n - 1) {
        EndedCounts(next, script, n - 1);
      }
    }
  }

  /** In particular it does if every Execute at the current time adds later events only. */
  lemma {:induction false} LaterScriptsEnd(s: State, script: Script, n: nat)
    requires forall k, id :: AllLater(script(k, id, s.time).adds, s.time)
    requires n == DueCount(s.queue, s.time)
    ensures EndsWithin(s, script, n) && AddedLater(Drain(s, script, n).1)
    decreases n
  {
    hide Step, Drain, PlaceAll, DueCount, AddsOf, Marked, AddedLater, AllLater;
    DrainOnce(s, script, n);
    DueMeansCount(s);
    if n == 0 {
      NothingAddedLater();
    } else {
      StepShape(s, script);
      var (next, e) := Step(s, script);
      OneEntry(e);
      LaterEntry(e);
      FirstEntry(e, Drain(next, script, n - 1).1);
      StepTakesOne(s, script, n);
      LaterScriptsEnd(next, script, n - 1);
    }
  }

  lemma NothingAddedLater()
    ensures AddedLater([])
  {
  }

  lemma LaterEntry(e: Entry)
    requires !e.Killed?
    ensures AddedLater([e]) <==> (e.Ran? ==> AllLater(AddsOf([e]), e.at))
  {
    OneEntry(e);
    assert [e][0] == e;
  }
}
