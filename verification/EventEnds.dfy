/** When the main loop of EventProcessor::Update ends, for Execute calls that may add events at the current time. */
module EventEnds {
  import opened EventQueue
  import opened EventLoop

  // An event that adds itself again at once.

  predicate AddsAtOnce(adds: seq<Add>, id: EventId, t: nat) {
    exists i :: 0 <= i < |adds| && adds[i].id == id && adds[i].time <= t
  }

  /** Whenever the event is executed at time t it adds itself again, and no event executed then marks it. */
  ghost predicate Rearms(script: Script, id: EventId, t: nat) {
    && (forall k :: AddsAtOnce(script(k, id, t).adds, id, t))
    && (forall k, other :: id !in script(k, other, t).aborts)
  }

  predicate HasDue(s: State, id: EventId) {
    exists x :: x in s.queue && x.id == id && x.time <= s.time
  }

  lemma DueIsInFront(s: State, x: Slot)
    requires Sorted(s.queue) && x in s.queue && x.time <= s.time
    ensures Due(s)
  {
    var i :| 0 <= i < |s.queue| && s.queue[i] == x;
    assert i == 0 || s.queue[0].time <= s.queue[i].time;
  }

  lemma StillDue(s: State, id: EventId, script: Script)
    requires s.queue != [] && HasDue(s, id) && id !in s.toAbort && Rearms(script, id, s.time)
    ensures HasDue(Step(s, script).0, id) && id !in Step(s, script).0.toAbort
  {
    hide Step, PlaceAll, AddsOf, Marked;
    var (next, e) := Step(s, script);
    StepShape(s, script);
    OneEntry(e);
    var x :| x in s.queue && x.id == id && x.time <= s.time;
    if x in s.queue[1..] {
      PlaceAllHas(s.queue[1..], AddsOf([e]), x);
      assert x in next.queue;
    } else {
      assert s.queue == [s.queue[0]] + s.queue[1..];
      var adds := script(s.executed, id, s.time).adds;
      assert AddsAtOnce(adds, id, s.time);
      var i :| 0 <= i < |adds| && adds[i].id == id && adds[i].time <= s.time;
      PlaceAllHas(s.queue[1..], adds, SlotOf(adds[i]));
      assert SlotOf(adds[i]) in next.queue;
    }
  }

  /** A due, unmarked event that always adds itself again at once keeps the loop going for ever, whatever is queued. */
  lemma {:induction false} NeverEnds(s: State, id: EventId, script: Script, n: nat)
    requires Sorted(s.queue) && HasDue(s, id) && id !in s.toAbort && Rearms(script, id, s.time)
    ensures var (last, log) := Drain(s, script, n); |log| == n && Due(last)
    decreases n
  {
    hide Step, Drain, HasDue, PlaceAll, AddsOf, Marked, Rearms;
    DrainOnce(s, script, n);
    HasDueIsDue(s, id);
    if n > 0 {
      StepShape(s, script);
      StillDue(s, id, script);
      PlaceAllSorted(s.queue[1..], AddsOf([Step(s, script).1]));
      NeverEnds(Step(s, script).0, id, script, n - 1);
    }
  }

  lemma HasDueIsDue(s: State, id: EventId)
    requires Sorted(s.queue) && HasDue(s, id)
    ensures Due(s)
  {
    var x :| x in s.queue && x.id == id && x.time <= s.time;
    DueIsInFront(s, x);
  }

  // Events that add others at once, which add others at once, and so on.

  /** What Execute does at time t does not depend on the number of the call, and it marks nothing. */
  ghost predicate Plain(script: Script, t: nat) {
    && (forall k, id :: script(k, id, t) == script(0, id, t))
    && (forall id :: script(0, id, t).aborts == {})
  }

  /** No chain of d events starts at id in which each unmarked one adds the next at time t or earlier. */
  predicate ChainsEnd(script: Script, t: nat, marked: set<EventId>, id: EventId, d: nat)
    decreases d
  {
    id in marked ||
    (d > 0 && forall i :: 0 <= i < |script(0, id, t).adds| && script(0, id, t).adds[i].time <= t ==>
                ChainsEnd(script, t, marked, script(0, id, t).adds[i].id, d - 1))
  }

  /** The chains that start at the due slots all end before their d-th event. */
  ghost predicate AllChainsEnd(s: State, script: Script, d: nat) {
    forall x :: x in s.queue && x.time <= s.time ==> ChainsEnd(script, s.time, s.toAbort, x.id, d)
  }

  lemma {:induction false} ChainsEndLater(script: Script, t: nat, marked: set<EventId>, id: EventId, d: nat)
    requires ChainsEnd(script, t, marked, id, d)
    ensures ChainsEnd(script, t, marked, id, d + 1)
    decreases d
  {
    if id !in marked {
      var adds := script(0, id, t).adds;
      forall i | 0 <= i < |adds| && adds[i].time <= t
        ensures ChainsEnd(script, t, marked, adds[i].id, d)
      {
        ChainsEndLater(script, t, marked, adds[i].id, d - 1);
      }
    }
  }

  /** If the loop ends within n rounds, no chain of immediate additions has n events. */
  lemma {:induction false} EndedChains(s: State, script: Script, n: nat)
    requires Sorted(s.queue) && Plain(script, s.time) && EndsWithin(s, script, n)
    ensures AllChainsEnd(s, script, n)
    decreases n
  {
    hide Step, Drain, PlaceAll, AddsOf, Marked, ChainsEnd;
    DrainOnce(s, script, n);
    if !Due(s) {
      NothingDue(s);
    } else {
      var (next, e) := Step(s, script);
      StepShape(s, script);
      OneEntry(e);
      PlaceAllSorted(s.queue[1..], AddsOf([e]));
      EndedChains(next, script, n - 1);
      forall x | x in s.queue && x.time <= s.time
        ensures ChainsEnd(script, s.time, s.toAbort, x.id, n)
      {
        ChainBefore(s, script, n, x);
      }
    }
  }

  lemma NothingDue(s: State)
    requires Sorted(s.queue) && !Due(s)
    ensures forall x :: x in s.queue ==> x.time > s.time
  {
    forall x | x in s.queue
      ensures x.time > s.time
    {
      var i :| 0 <= i < |s.queue| && s.queue[i] == x;
      assert i == 0 || s.queue[0].time <= s.queue[i].time;
    }
  }

  /** One round earlier the chains are at most one event longer. */
  lemma ChainBefore(s: State, script: Script, n: nat, x: Slot)
    requires s.queue != [] && Plain(script, s.time) && n > 0 && AllChainsEnd(Step(s, script).0, script, n - 1)
    requires x in s.queue && x.time <= s.time
    ensures ChainsEnd(script, s.time, s.toAbort, x.id, n)
  {
    hide Step, PlaceAll, AddsOf, Marked;
    var (next, e) := Step(s, script);
    StepShape(s, script);
    OneEntry(e);
    assert next.toAbort == s.toAbort;
    if x in s.queue[1..] {
      PlaceAllHas(s.queue[1..], AddsOf([e]), x);
      assert x in next.queue;
      ChainsEndLater(script, s.time, s.toAbort, x.id, n - 1);
    } else if x.id !in s.toAbort {
      assert s.queue == [s.queue[0]] + s.queue[1..];
      var adds := script(0, x.id, s.time).adds;
      assert AddsOf([e]) == adds;
      forall i | 0 <= i < |adds| && adds[i].time <= s.time
        ensures ChainsEnd(script, s.time, s.toAbort, adds[i].id, n - 1)
      {
        PlaceAllHas(s.queue[1..], adds, SlotOf(adds[i]));
        assert SlotOf(adds[i]) in next.queue;
      }
    }
  }

  // How many rounds it takes.

  /** The rounds that handling one due slot of an event leads to, following chains of at most d events. */
  function Rounds(script: Script, t: nat, marked: set<EventId>, id: EventId, d: nat): (n: nat)
    ensures n >= 1
    decreases d, 0
  {
    if id in marked || d == 0 then 1 else 1 + RoundsOfAdds(script, t, marked, script(0, id, t).adds, d - 1)
  }

  function RoundsOfAdds(script: Script, t: nat, marked: set<EventId>, adds: seq<Add>, d: nat): nat
    decreases d, 1 + |adds|
  {
    if adds == [] then 0
    else (if adds[0].time <= t then Rounds(script, t, marked, adds[0].id, d) else 0)
         + RoundsOfAdds(script, t, marked, adds[1..], d)
  }

  function RoundsOfQueue(script: Script, t: nat, marked: set<EventId>, q: seq<Slot>, d: nat): nat {
    if q == [] then 0
    else (if q[0].time <= t then Rounds(script, t, marked, q[0].id, d) else 0)
         + RoundsOfQueue(script, t, marked, q[1..], d)
  }

  ghost predicate AddsChainsEnd(script: Script, t: nat, marked: set<EventId>, adds: seq<Add>, d: nat) {
    forall i :: 0 <= i < |adds| && adds[i].time <= t ==> ChainsEnd(script, t, marked, adds[i].id, d)
  }

  /** Once the chains have ended, following them further changes nothing. */
  lemma {:induction false} RoundsSettle(script: Script, t: nat, marked: set<EventId>, id: EventId, d: nat)
    requires ChainsEnd(script, t, marked, id, d)
    ensures Rounds(script, t, marked, id, d + 1) == Rounds(script, t, marked, id, d)
    decreases d, 0
  {
    if id !in marked {
      RoundsOfAddsSettle(script, t, marked, script(0, id, t).adds, d - 1);
    }
  }

  lemma {:induction false} RoundsOfAddsSettle(script: Script, t: nat, marked: set<EventId>, adds: seq<Add>, d: nat)
    requires AddsChainsEnd(script, t, marked, adds, d)
    ensures RoundsOfAdds(script, t, marked, adds, d + 1) == RoundsOfAdds(script, t, marked, adds, d)
    decreases d, 1 + |adds|
  {
    hide ChainsEnd, Rounds;
    if adds != [] {
      RoundsOfAddsSettle(script, t, marked, adds[1..], d);
      if adds[0].time <= t {
        RoundsSettle(script, t, marked, adds[0].id, d);
      }
    }
  }

  lemma {:induction false} PlaceRounds(script: Script, t: nat, marked: set<EventId>, q: seq<Slot>, s: Slot, d: nat)
    ensures RoundsOfQueue(script, t, marked, Place(q, s), d)
         == RoundsOfQueue(script, t, marked, q, d) + (if s.time <= t then Rounds(script, t, marked, s.id, d) else 0)
  {
    hide Rounds;
    if q == [] || s.time < q[0].time {
      assert ([s] + q)[1..] == q;
    } else {
      PlaceRounds(script, t, marked, q[1..], s, d);
      assert ([q[0]] + Place(q[1..], s))[1..] == Place(q[1..], s);
    }
  }

  lemma {:induction false} PlaceAllRounds(script: Script, t: nat, marked: set<EventId>,
                                          q: seq<Slot>, adds: seq<Add>, d: nat)
    ensures RoundsOfQueue(script, t, marked, PlaceAll(q, adds), d)
         == RoundsOfQueue(script, t, marked, q, d) + RoundsOfAdds(script, t, marked, adds, d)
    decreases |adds|
  {
    hide Rounds, Place, RoundsOfQueue;
    if adds != [] {
      PlaceRounds(script, t, marked, q, SlotOf(adds[0]), d);
      PlaceAllRounds(script, t, marked, Place(q, SlotOf(adds[0])), adds[1..], d);
    }
  }

  lemma StepRounds(s: State, script: Script, d: nat)
    requires Due(s) && Plain(script, s.time) && AllChainsEnd(s, script, d)
    ensures var next := Step(s, script).0;
            RoundsOfQueue(script, s.time, s.toAbort, s.queue, d)
            == 1 + RoundsOfQueue(script, s.time, next.toAbort, next.queue, d)
  {
    hide Step, PlaceAll, AddsOf, Marked, RoundsOfAdds;
    var (next, e) := Step(s, script);
    StepShape(s, script);
    OneEntry(e);
    NoAdds(s.queue[1..]);
    assert next.toAbort == s.toAbort;
    var id := s.queue[0].id;
    assert s.queue[0] in s.queue;
    if id !in s.toAbort {
      var adds := script(0, id, s.time).adds;
      assert AddsOf([e]) == adds;
      PlaceAllRounds(script, s.time, s.toAbort, s.queue[1..], adds, d);
      RoundsOfAddsSettle(script, s.time, s.toAbort, adds, d - 1);
    }
  }

  lemma StepChains(s: State, script: Script, d: nat)
    requires Due(s) && Plain(script, s.time) && AllChainsEnd(s, script, d)
    ensures AllChainsEnd(Step(s, script).0, script, d)
  {
    hide Step, PlaceAll, AddsOf, Marked;
    var (next, e) := Step(s, script);
    StepShape(s, script);
    OneEntry(e);
    assert next.toAbort == s.toAbort;
    var id := s.queue[0].id;
    assert s.queue[0] in s.queue && forall y :: y in s.queue[1..] ==> y in s.queue;
    forall x | x in next.queue && x.time <= s.time
      ensures ChainsEnd(script, s.time, s.toAbort, x.id, d)
    {
      PlaceAllHas(s.queue[1..], AddsOf([e]), x);
      if x !in s.queue[1..] {
        var adds := AddsOf([e]);
        var i :| 0 <= i < |adds| && SlotOf(adds[i]) == x;
        assert adds == script(0, id, s.time).adds;
        ChainsEndLater(script, s.time, s.toAbort, x.id, d - 1);
      }
    }
  }

  /** When all chains end, the loop ends after exactly the rounds they take. */
  lemma {:induction false} EndsAfterRounds(s: State, script: Script, d: nat, n: nat)
    requires Sorted(s.queue) && Plain(script, s.time) && AllChainsEnd(s, script, d)
    requires n == RoundsOfQueue(script, s.time, s.toAbort, s.queue, d)
    ensures EndsWithin(s, script, n) && |Drain(s, script, n).1| == n
    decreases n
  {
    hide Step, Drain, PlaceAll, AddsOf, Marked, ChainsEnd, AllChainsEnd, Rounds, Plain;
    DrainOnce(s, script, n);
    if Due(s) {
      StepRounds(s, script, d);
      StepChains(s, script, d);
      StepShape(s, script);
      PlaceAllSorted(s.queue[1..], AddsOf([Step(s, script).1]));
      EndsAfterRounds(Step(s, script).0, script, d, n - 1);
    } else {
      NothingDueNoRounds(s, script, s.queue, d);
    }
  }

  lemma {:induction false} NothingDueNoRounds(s: State, script: Script, q: seq<Slot>, d: nat)
    requires Sorted(q) && (q == [] || q[0].time > s.time)
    ensures RoundsOfQueue(script, s.time, s.toAbort, q, d) == 0
  {
    hide Rounds;
    if q != [] {
      NothingDueNoRounds(s, script, q[1..], d);
    }
  }

  /**
   * The exact condition.  When what Execute does at the current time depends on the event only and marks nothing, the
   * loop ends if and only if the chains of immediate additions that start at the due slots have bounded length.
   */
  lemma EndsIfChainsEnd(s: State, script: Script)
    requires Sorted(s.queue) && Plain(script, s.time)
    ensures (exists n :: EndsWithin(s, script, n)) <==> (exists d :: AllChainsEnd(s, script, d))
  {
    hide Sorted, Plain, EndsWithin, AllChainsEnd, RoundsOfQueue;
    if n :| EndsWithin(s, script, n) {
      EndedChains(s, script, n);
    }
    if d :| AllChainsEnd(s, script, d) {
      EndsAfterRounds(s, script, d, RoundsOfQueue(script, s.time, s.toAbort, s.queue, d));
    }
  }

  // Events that add only themselves.

  ghost predicate OnlyThemselves(script: Script, t: nat) {
    forall id, i :: 0 <= i < |script(0, id, t).adds| ==> script(0, id, t).adds[i].id == id
  }

  /** No due, unmarked event adds itself again at the current time or earlier: what a caller can check beforehand. */
  ghost predicate NoneAtOnce(s: State, script: Script) {
    forall x :: x in s.queue && x.time <= s.time && x.id !in s.toAbort ==>
                  AllLater(script(0, x.id, s.time).adds, s.time)
  }

  lemma {:induction false} SelfChainGoesOn(script: Script, t: nat, marked: set<EventId>, id: EventId, d: nat)
    requires OnlyThemselves(script, t) && id !in marked && !AllLater(script(0, id, t).adds, t)
    ensures !ChainsEnd(script, t, marked, id, d)
    decreases d
  {
    if d > 0 {
      var adds := script(0, id, t).adds;
      var i :| 0 <= i < |adds| && adds[i].time <= t;
      assert adds[i].id == id;
      SelfChainGoesOn(script, t, marked, id, d - 1);
    }
  }

  /** For events that add only themselves, the loop ends if and only if no due, unmarked one does so at once. */
  lemma EndsIfNoneAtOnce(s: State, script: Script)
    requires Sorted(s.queue) && Plain(script, s.time) && OnlyThemselves(script, s.time)
    ensures (exists n :: EndsWithin(s, script, n)) <==> NoneAtOnce(s, script)
  {
    hide Sorted, Plain, EndsWithin, OnlyThemselves;
    EndsIfChainsEnd(s, script);
    if d :| AllChainsEnd(s, script, d) {
      forall x | x in s.queue && x.time <= s.time && x.id !in s.toAbort
        ensures AllLater(script(0, x.id, s.time).adds, s.time)
      {
        if !AllLater(script(0, x.id, s.time).adds, s.time) {
          SelfChainGoesOn(script, s.time, s.toAbort, x.id, d);
        }
      }
    }
    if NoneAtOnce(s, script) {
      assert AllChainsEnd(s, script, 1);
    }
  }
}
