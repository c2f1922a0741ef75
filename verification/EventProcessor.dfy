/** shared/Utilities/EventProcessor.cpp: events run in time order and may add events while they run. */
module EventObject {
  import opened EventQueue
  import opened EventLoop
  import opened EventRuns

  lemma {:induction false} ChosenOneMore(q: seq<Slot>, s: Slot, gone: bool, force: bool, deletable: EventId -> bool)
    ensures Chosen(q + [s], gone, force, deletable)
         == Chosen(q, gone, force, deletable) + (if (force || deletable(s.id)) == gone then [s] else [])
  {
    if q == [] {
      assert q + [s] == [s] && [s][1..] == [];
    } else {
      assert (q + [s])[1..] == q[1..] + [s];
      ChosenOneMore(q[1..], s, gone, force, deletable);
    }
  }

  lemma TakeFirst(done: seq<Slot>, kept: seq<Slot>, rest: seq<Slot>)
    requires rest != []
    ensures (done + [rest[0]]) + rest[1..] == done + rest && (kept + [rest[0]]) + rest[1..] == kept + rest
    ensures (kept + rest)[|kept|] == rest[0]
    ensures (kept + rest)[..|kept|] + (kept + rest)[|kept| + 1..] == kept + rest[1..]
  {
  }

  lemma IdsOneMore(q: seq<Slot>, s: Slot)
    ensures IdsOf(q + [s]) == IdsOf(q) + {s.id}
  {
    var r := q + [s];
    assert r[|q|] == s;
    forall i | 0 <= i < |q|
      ensures q[i].id in IdsOf(r)
    {
      assert r[i] == q[i];
    }
  }

  lemma NoneChosen(force: bool, deletable: EventId -> bool)
    ensures Chosen([], true, force, deletable) == [] && Chosen([], false, force, deletable) == [] && IdsOf([]) == {}
  {
  }

  lemma {:induction false} AllChosen(q: seq<Slot>, deletable: EventId -> bool)
    ensures Chosen(q, true, true, deletable) == q && Chosen(q, false, true, deletable) == []
  {
    if q != [] {
      AllChosen(q[1..], deletable);
    }
  }

  class EventProcessor {
    var time: nat
    var queue: seq<Slot>
    var aborting: bool
    // How often Execute has been called, and the fields of the events.
    var executed: nat
    var toAbort: set<EventId>
    var addTime: map<EventId, nat>
    var execTime: map<EventId, nat>

    constructor ()
      ensures time == 0 && queue == [] && !aborting && toAbort == {}
    {
      time, queue, aborting, executed, toAbort, addTime, execTime := 0, [], false, 0, {}, map[], map[];
    }

    function Now(): State
      reads this
    {
      State(time, queue, executed, toAbort, addTime, execTime)
    }

    method AddEvent(a: Add)
      modifies this
      ensures Now() == Added(old(Now()), a) && aborting == old(aborting)
    {
      if a.setAddTime {
        addTime := addTime[a.id := time];
      }
      execTime := execTime[a.id := a.time];
      queue := Place(queue, Slot(a.time, a.id));
    }

    /** One call of the virtual Execute on the event of a slot. */
    method Execute(slot: Slot, script: Script) returns (r: Reaction)
      modifies this
      ensures r == script(old(executed), slot.id, old(time)) && aborting == old(aborting)
      ensures Now() == AddedAll(old(Now()).(toAbort := old(toAbort) + r.aborts, executed := old(executed) + 1), r.adds)
    {
      hide Place, PlaceAll;
      r := script(executed, slot.id, time);
      executed, toAbort := executed + 1, toAbort + r.aborts;
      ghost var start := Now();
      var i := 0;
      assert r.adds[0..] == r.adds;
      while i < |r.adds|
        invariant 0 <= i <= |r.adds| && aborting == old(aborting)
        invariant AddedAll(start, r.adds) == AddedAll(Now(), r.adds[i..])
      {
        assert r.adds[i..][1..] == r.adds[i + 1..];
        AddEvent(r.adds[i]);
        i := i + 1;
      }
    }

    /** One round of the main loop. */
    method Round(script: Script) returns (e: Entry)
      requires queue != []
      modifies this
      ensures (Now(), e) == Step(old(Now()), script) && aborting == old(aborting)
    {
      hide AddedAll, Place, PlaceAll;
      var slot := queue[0];
      queue := queue[1..];
      if slot.id !in toAbort {
        var r := Execute(slot, script);
        e := Ran(slot, time, r);
      } else {
        e := Aborted(slot);
      }
    }

    /** The main loop: for every script with which it ends, whatever Execute does. */
    method Update(diff: nat, script: Script, ghost rounds: nat, ghost deletable: EventId -> bool)
      returns (log: seq<Entry>)
      requires EndsWithin(Now().(time := Later(time, diff)), script, rounds)
      modifies this
      ensures (Now(), log) == Apply(old(Now()), Tick(diff, rounds), script, deletable)
      ensures time == (old(time) + diff) % 0x1_0000_0000_0000_0000
      ensures !Due(Now()) && aborting == old(aborting)
      ensures AddedLater(log) ==> SlotsOf(log) == old(queue)[..DueCount(old(queue), time)]
      ensures AddedLater(log) ==> queue == PlaceAll(old(queue)[DueCount(old(queue), time)..], AddsOf(log))
    {
      hide AddedAll, Place, PlaceAll, DueCount, AddedLater, Drain, Step, AddsOf, Marked, SlotsOf;
      time := (time + diff) % 0x1_0000_0000_0000_0000;
      ghost var start := Now();
      ghost var whole := Drain(start, script, rounds);
      log := [];
      if AddedLater(whole.1) {
        DrainHandlesDue(start, script, rounds);
      }
      ghost var left := rounds;
      while |queue| > 0 && queue[0].time <= time
        invariant time == start.time && aborting == old(aborting)
        invariant whole.0 == Drain(Now(), script, left).0
        invariant whole.1 == log + Drain(Now(), script, left).1
        decreases left
      {
        StepShape(Now(), script);
        DrainOnce(Now(), script, left);
        var e := Round(script);
        log := log + [e];
        left := left - 1;
      }
      DrainOnce(Now(), script, left);
      assert log + [] == log;
      assert whole == (Now(), log);
    }

    /** Aborts every queued event; the deleted ones leave the queue.  Returns the Abort calls and the deletions. */
    method KillAllEvents(force: bool, ghost script: Script, deletable: EventId -> bool)
      returns (aborted: seq<Slot>, deleted: seq<Slot>)
      modifies this
      ensures (Now(), KilledEntries(deleted)) == Apply(old(Now()), KillAll(force), script, deletable)
      ensures aborted == old(queue) && aborting
      ensures force ==> queue == [] && deleted == old(queue)
    {
      hide Chosen, IdsOf, KilledEntries;
      AllChosen(queue, deletable);
      aborting := true;
      aborted, deleted := AbortAll(force, deletable);
      if force {
        queue := [];
      }
    }

    /** The loop of KillAllEvents, which erases as it goes unless it is forced. */
    method AbortAll(force: bool, deletable: EventId -> bool) returns (aborted: seq<Slot>, deleted: seq<Slot>)
      modifies this`queue, this`toAbort
      ensures aborted == old(queue) && toAbort == old(toAbort) + IdsOf(old(queue))
      ensures deleted == Chosen(old(queue), true, force, deletable)
      ensures queue == if force then old(queue) else Chosen(old(queue), false, force, deletable)
    {
      hide Chosen, IdsOf;
      NoneChosen(force, deletable);
      aborted, deleted := [], [];
      ghost var rest, kept := queue, [];
      var i := 0;
      while i < |queue|
        invariant aborted + rest == old(queue) && queue == kept + rest && i == |kept|
        invariant toAbort == old(toAbort) + IdsOf(aborted)
        invariant deleted == Chosen(aborted, true, force, deletable)
        invariant kept == if force then aborted else Chosen(aborted, false, force, deletable)
        decreases |rest|
      {
        var slot := queue[i];
        TakeFirst(aborted, kept, rest);
        IdsOneMore(aborted, slot);
        ChosenOneMore(aborted, slot, true, force, deletable);
        ChosenOneMore(aborted, slot, false, force, deletable);
        toAbort := toAbort + {slot.id};
        aborted := aborted + [slot];
        if force || deletable(slot.id) {
          deleted := deleted + [slot];
          if !force {
            queue := queue[..i] + queue[i + 1..];
          } else {
            i := i + 1;
            kept := kept + [slot];
          }
        } else {
          i := i + 1;
          kept := kept + [slot];
        }
        rest := rest[1..];
      }
      assert aborted + [] == aborted && kept + [] == kept;
    }
  }
}
