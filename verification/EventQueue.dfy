/** The multimap of shared/Utilities/EventProcessor.h: slots in order of time, and of insertion within a time. */
module EventQueue {

  type EventId = nat

  /** One element of the multimap. */
  datatype Slot = Slot(time: nat, id: EventId)

  datatype Add = Add(id: EventId, time: nat, setAddTime: bool)

  function SlotOf(a: Add): Slot {
    Slot(a.time, a.id)
  }

  predicate Sorted(q: seq<Slot>) {
    forall i, j :: 0 <= i < j < |q| ==> q[i].time <= q[j].time
  }

  /** multimap::insert: after all slots of the same or an earlier time. */
  function Place(q: seq<Slot>, s: Slot): (r: seq<Slot>)
    ensures |r| == |q| + 1
  {
    if q == [] || s.time < q[0].time then [s] + q else [q[0]] + Place(q[1..], s)
  }

  /** How many slots at the front are due. */
  function DueCount(q: seq<Slot>, t: nat): (n: nat)
    ensures n <= |q|
    ensures forall i :: 0 <= i < n ==> q[i].time <= t
    ensures n < |q| ==> q[n].time > t
  {
    if q == [] || q[0].time > t then 0 else 1 + DueCount(q[1..], t)
  }

  /** In a sorted queue the due slots are those at the front. */
  lemma DueAreInFront(q: seq<Slot>, t: nat, i: nat)
    requires Sorted(q) && i < |q|
    ensures q[i].time <= t <==> i < DueCount(q, t)
  {
    hide DueCount;
  }

  /** Insertion puts the slot behind those of its own time and changes nothing else. */
  lemma {:induction false} PlacedAtUpperBound(q: seq<Slot>, s: Slot)
    ensures var p := DueCount(q, s.time); Place(q, s) == q[..p] + [s] + q[p..]
  {
    if q != [] && q[0].time <= s.time {
      PlacedAtUpperBound(q[1..], s);
      var p := DueCount(q[1..], s.time);
      assert q[..p + 1] == [q[0]] + q[1..][..p];
    }
  }

  lemma PlaceSorted(q: seq<Slot>, s: Slot)
    requires Sorted(q)
    ensures Sorted(Place(q, s))
  {
    hide DueCount, Place;
    PlacedAtUpperBound(q, s);
    var p, r := DueCount(q, s.time), Place(q, s);
    forall i, j | 0 <= i < j < |r|
      ensures r[i].time <= r[j].time
    {
      assert i < p ==> r[i] == q[i];
      assert i > p ==> r[i] == q[i - 1];
      assert j < p ==> r[j] == q[j];
      assert j > p ==> r[j] == q[j - 1];
      assert p < |q| && j > p ==> q[p].time <= q[j - 1].time;
    }
  }

  lemma PlaceKeepsAll(q: seq<Slot>, s: Slot)
    ensures multiset(Place(q, s)) == multiset(q) + multiset{s}
  {
    hide DueCount, Place;
    PlacedAtUpperBound(q, s);
    var p := DueCount(q, s.time);
    assert q == q[..p] + q[p..];
  }

  lemma PlaceHas(q: seq<Slot>, s: Slot, x: Slot)
    ensures x in Place(q, s) <==> x == s || x in q
  {
    hide Place;
    PlaceKeepsAll(q, s);
    assert x in Place(q, s) <==> x in multiset(Place(q, s));
    assert x in q <==> x in multiset(q);
  }

  /** Insertion into a sorted queue adds a due slot exactly if the new slot is due. */
  lemma {:induction false} PlaceCounts(q: seq<Slot>, s: Slot, t: nat)
    requires Sorted(q)
    ensures DueCount(Place(q, s), t) == DueCount(q, t) + (if s.time <= t then 1 else 0)
  {
    if q != [] && q[0].time <= s.time {
      PlaceCounts(q[1..], s, t);
    }
  }

  /** A slot later than everything in front goes into the rest. */
  lemma {:induction false} PlaceBehind(front: seq<Slot>, rest: seq<Slot>, s: Slot)
    requires forall i :: 0 <= i < |front| ==> front[i].time <= s.time
    ensures Place(front + rest, s) == front + Place(rest, s)
  {
    if front == [] {
      assert front + rest == rest && front + Place(rest, s) == Place(rest, s);
    } else {
      assert (front + rest)[1..] == front[1..] + rest;
      PlaceBehind(front[1..], rest, s);
      assert front + Place(rest, s) == [front[0]] + (front[1..] + Place(rest, s));
    }
  }

  // Several insertions, one after the other.

  function PlaceAll(q: seq<Slot>, adds: seq<Add>): seq<Slot>
    decreases |adds|
  {
    if adds == [] then q else PlaceAll(Place(q, SlotOf(adds[0])), adds[1..])
  }

  predicate AllLater(adds: seq<Add>, t: nat) {
    forall i :: 0 <= i < |adds| ==> adds[i].time > t
  }

  lemma NoAdds(q: seq<Slot>)
    ensures PlaceAll(q, []) == q
  {
  }

  lemma {:induction false} PlaceAllBehind(front: seq<Slot>, rest: seq<Slot>, adds: seq<Add>, t: nat)
    requires AllLater(adds, t) && forall i :: 0 <= i < |front| ==> front[i].time <= t
    ensures PlaceAll(front + rest, adds) == front + PlaceAll(rest, adds)
    decreases |adds|
  {
    if adds != [] {
      PlaceBehind(front, rest, SlotOf(adds[0]));
      PlaceAllBehind(front, Place(rest, SlotOf(adds[0])), adds[1..], t);
    }
  }

  lemma {:induction false} PlaceAllSorted(q: seq<Slot>, adds: seq<Add>)
    requires Sorted(q)
    ensures Sorted(PlaceAll(q, adds))
    decreases |adds|
  {
    hide Sorted, Place;
    if adds != [] {
      PlaceSorted(q, SlotOf(adds[0]));
      PlaceAllSorted(Place(q, SlotOf(adds[0])), adds[1..]);
    }
  }

  lemma {:induction false} PlaceAllConcat(q: seq<Slot>, a: seq<Add>, b: seq<Add>)
    ensures PlaceAll(q, a + b) == PlaceAll(PlaceAll(q, a), b)
    decreases |a|
  {
    if a == [] {
      assert a + b == b;
    } else {
      assert (a + b)[1..] == a[1..] + b;
      PlaceAllConcat(Place(q, SlotOf(a[0])), a[1..], b);
    }
  }

  lemma {:induction false} PlaceAllHas(q: seq<Slot>, adds: seq<Add>, x: Slot)
    ensures x in PlaceAll(q, adds) <==> x in q || exists i :: 0 <= i < |adds| && SlotOf(adds[i]) == x
    decreases |adds|
  {
    hide Place, SlotOf;
    if adds != [] {
      var rest := adds[1..];
      PlaceHas(q, SlotOf(adds[0]), x);
      PlaceAllHas(Place(q, SlotOf(adds[0])), rest, x);
      assert forall i :: 0 <= i < |rest| ==> rest[i] == adds[i + 1];
      assert (exists i :: 0 <= i < |adds| && SlotOf(adds[i]) == x) <==>
             SlotOf(adds[0]) == x || exists i :: 0 <= i < |rest| && SlotOf(rest[i]) == x by {
        assert forall i :: 1 <= i < |adds| ==> adds[i] == rest[i - 1];
      }
    }
  }

  /** Insertions never take a due slot away, and a due insertion adds one. */
  lemma {:induction false} PlaceAllCounts(q: seq<Slot>, adds: seq<Add>, t: nat)
    requires Sorted(q)
    ensures DueCount(PlaceAll(q, adds), t) >= DueCount(q, t)
    ensures !AllLater(adds, t) ==> DueCount(PlaceAll(q, adds), t) > DueCount(q, t)
    decreases |adds|
  {
    hide Sorted, Place, DueCount;
    if adds != [] {
      PlaceSorted(q, SlotOf(adds[0]));
      PlaceCounts(q, SlotOf(adds[0]), t);
      PlaceAllCounts(Place(q, SlotOf(adds[0])), adds[1..], t);
    }
  }

  /** If the first slot is not due, it is not due after later insertions either. */
  lemma {:induction false} LaterStaysLater(q: seq<Slot>, adds: seq<Add>, t: nat)
    requires AllLater(adds, t) && (q == [] || q[0].time > t)
    ensures var r := PlaceAll(q, adds); r == [] || r[0].time > t
    decreases |adds|
  {
    if adds != [] {
      LaterStaysLater(Place(q, SlotOf(adds[0])), adds[1..], t);
    }
  }

  lemma {:induction false} CountOfConcat(front: seq<Slot>, rest: seq<Slot>, t: nat)
    requires (forall i :: 0 <= i < |front| ==> front[i].time <= t) && (rest == [] || rest[0].time > t)
    ensures DueCount(front + rest, t) == |front|
  {
    if front == [] {
      assert front + rest == rest;
    } else {
      assert (front + rest)[1..] == front[1..] + rest;
      CountOfConcat(front[1..], rest, t);
    }
  }

  // The slots of a queue as a multiset.

  function SlotBag(adds: seq<Add>): multiset<Slot> {
    if adds == [] then multiset{} else multiset{SlotOf(adds[0])} + SlotBag(adds[1..])
  }

  lemma {:induction false} SlotBagConcat(a: seq<Add>, b: seq<Add>)
    ensures SlotBag(a + b) == SlotBag(a) + SlotBag(b)
  {
    if a == [] {
      assert a + b == b;
    } else {
      assert (a + b)[1..] == a[1..] + b;
      SlotBagConcat(a[1..], b);
    }
  }

  lemma {:induction false} PlaceAllKeepsAll(q: seq<Slot>, adds: seq<Add>)
    ensures multiset(PlaceAll(q, adds)) == multiset(q) + SlotBag(adds)
    decreases |adds|
  {
    hide Place;
    if adds != [] {
      PlaceKeepsAll(q, SlotOf(adds[0]));
      PlaceAllKeepsAll(Place(q, SlotOf(adds[0])), adds[1..]);
    }
  }
}
