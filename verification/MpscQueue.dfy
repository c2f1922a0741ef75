/**
 * The lock-free multi-producer, single-consumer queue as a step system.
 *
 * Every atomic access, allocation and deletion of the source is one step, taken in one global
 * order (sequential consistency).  Any thread may be a producer; one thread consumes.  An
 * access to a node that is not allocated, or a second deletion of it, sets `fault`.  Addresses
 * may be reused once freed.
 */
module MpscQueue {

  type Ptr = nat
  type Tid = nat
  type Item = nat

  datatype Option<+T> = None | Some(value: T)

  datatype Node = Node(data: Item, next: Option<Ptr>)

  /** Where a producer is inside Enqueue; a thread without an entry is outside. */
  datatype Producer = Built(node: Ptr) | Exchanged(node: Ptr, prev: Ptr)

  /** Where the consumer is inside Dequeue. */
  datatype Consumer =
    | Outside
    | HasTail(tail: Ptr)
    | HasNext(tail: Ptr, next: Ptr)
    | HasData(tail: Ptr, next: Ptr, item: Item)
    | HasAdvanced(tail: Ptr, item: Item)

  /**
   * The shared memory and the threads, with the history of items in order of head exchange, of
   * items returned by Dequeue, and of allocations and deletions.
   */
  datatype State = State(
    heap: map<Ptr, Node>, head: Ptr, tail: Ptr,
    producers: map<Tid, Producer>, consumer: Consumer,
    enqueued: seq<Item>, dequeued: seq<Item>,
    news: multiset<Ptr>, deletes: multiset<Ptr>, fault: bool)

  datatype Step =
    | New(t: Tid, input: Item, at: Ptr)
    | Exchange(t: Tid)
    | Link(t: Tid)
    | LoadTail
    | LoadNext
    | TakeData
    | StoreTail
    | Delete

  /** The constructor: one stub node, whose data is whatever the memory held. */
  function Constructed(stub: Ptr, junk: Item): State {
    State(map[stub := Node(junk, None)], stub, stub, map[], Outside, [], [], multiset{stub}, multiset{}, false)
  }

  /** May this step be the next one of its thread? */
  predicate Enabled(s: State, step: Step) {
    match step
    case New(t, _, at) => t !in s.producers && at !in s.heap
    case Exchange(t) => t in s.producers && s.producers[t].Built?
    case Link(t) => t in s.producers && s.producers[t].Exchanged?
    case LoadTail => s.consumer.Outside?
    case LoadNext => s.consumer.HasTail?
    case TakeData => s.consumer.HasNext?
    case StoreTail => s.consumer.HasData?
    case Delete => s.consumer.HasAdvanced?
  }

  /** One step; a step that is not its thread's next one leaves the state alone. */
  function Next(s: State, step: Step): State {
    if !Enabled(s, step) then s
    else match step
      case New(t, input, at) =>
        s.(heap := s.heap[at := Node(input, None)],
           producers := s.producers[t := Built(at)],
           news := s.news + multiset{at})
      case Exchange(t) =>
        var node := s.producers[t].node;
        if node !in s.heap then s.(fault := true)
        else
          s.(head := node,
             producers := s.producers[t := Exchanged(node, s.head)],
             enqueued := s.enqueued + [s.heap[node].data])
      case Link(t) =>
        var Exchanged(node, prev) := s.producers[t];
        if prev !in s.heap then s.(fault := true)
        else
          s.(heap := s.heap[prev := s.heap[prev].(next := Some(node))],
             producers := s.producers - {t})
      case LoadTail =>
        s.(consumer := HasTail(s.tail))
      case LoadNext =>
        var tail := s.consumer.tail;
        if tail !in s.heap then s.(fault := true)
        else
          var next := s.heap[tail].next;
          s.(consumer := if next == None then Outside else HasNext(tail, next.value))
      case TakeData =>
        var HasNext(tail, next) := s.consumer;
        if next !in s.heap then s.(fault := true)
        else s.(consumer := HasData(tail, next, s.heap[next].data))
      case StoreTail =>
        var HasData(tail, next, item) := s.consumer;
        s.(tail := next, consumer := HasAdvanced(tail, item))
      case Delete =>
        var HasAdvanced(tail, item) := s.consumer;
        if tail !in s.heap then s.(fault := true)
        else
          s.(heap := s.heap - {tail},
             consumer := Outside,
             dequeued := s.dequeued + [item],
             deletes := s.deletes + multiset{tail})
  }

  /** Any interleaving of any producers and the consumer. */
  function Run(s: State, steps: seq<Step>): State {
    if steps == [] then s
    else Next(Run(s, steps[..|steps| - 1]), steps[|steps| - 1])
  }

  // The invariant.

  /** A producer stands between its exchange and its link, on exactly this link. */
  ghost predicate Pending(s: State, prev: Ptr, node: Ptr) {
    exists t :: t in s.producers && s.producers[t] == Exchanged(node, prev)
  }

  predicate Adjacent(chain: seq<Ptr>, p: Ptr, n: Ptr) {
    exists i :: 0 < i < |chain| && chain[i - 1] == p && chain[i] == n
  }

  /** The items of all nodes but the first, whose item has been taken already. */
  function Items(heap: map<Ptr, Node>, chain: seq<Ptr>): (r: seq<Item>)
    requires |chain| > 0 && forall p :: p in chain ==> p in heap
    ensures |r| == |chain| - 1
  {
    seq(|chain| - 1, i requires 0 <= i < |chain| - 1 => heap[chain[i + 1]].data)
  }

  /** The item the consumer has advanced past but not yet returned. */
  function InFlight(c: Consumer): seq<Item> {
    if c.HasAdvanced? then [c.item] else []
  }

  /** The node the consumer is about to delete. */
  function Doomed(c: Consumer): set<Ptr> {
    if c.HasAdvanced? then {c.tail} else {}
  }

  /** From the tail to the head in order of exchange, each link either stored or pending. */
  ghost predicate Linked(s: State, chain: seq<Ptr>) {
    && |chain| > 0
    && chain[0] == s.tail
    && chain[|chain| - 1] == s.head
    && (forall i, j :: 0 <= i < j < |chain| ==> chain[i] != chain[j])
    && (forall p :: p in chain ==> p in s.heap && p !in Doomed(s.consumer))
    && s.heap[s.head].next == None
    && (forall i :: 0 < i < |chain| ==>
          || s.heap[chain[i - 1]].next == Some(chain[i])
          || (s.heap[chain[i - 1]].next == None && Pending(s, chain[i - 1], chain[i])))
  }

  ghost predicate ProducersOk(s: State, chain: seq<Ptr>) {
    && (forall t :: t in s.producers ==>
          var p := s.producers[t];
          && p.node in s.heap && p.node !in Doomed(s.consumer)
          && (p.Built? ==> p.node !in chain && s.heap[p.node].next == None)
          && (p.Exchanged? ==> Adjacent(chain, p.prev, p.node) && p.prev in s.heap && s.heap[p.prev].next == None))
    && (forall t, u :: t in s.producers && u in s.producers && t != u ==> s.producers[t].node != s.producers[u].node)
  }

  /** What the consumer holds is the tail, its stored successor and that one's item. */
  ghost predicate ConsumerOk(s: State, chain: seq<Ptr>) {
    match s.consumer
    case Outside => true
    case HasTail(t) => |chain| > 0 && t == chain[0]
    case HasNext(t, n) => Successor(s.heap, chain, t, n)
    case HasData(t, n, x) => Successor(s.heap, chain, t, n) && x == s.heap[n].data
    case HasAdvanced(t, x) => t in s.heap
  }

  ghost predicate Successor(heap: map<Ptr, Node>, chain: seq<Ptr>, t: Ptr, n: Ptr) {
    && |chain| > 1 && t == chain[0] && n == chain[1]
    && t in heap && n in heap && heap[t].next == Some(n)
  }

  /** Every allocated node is in the chain, about to be exchanged, or about to be deleted. */
  ghost predicate NothingLost(s: State, chain: seq<Ptr>) {
    && (forall p :: p in s.heap ==>
          p in chain || p in Doomed(s.consumer) || exists t :: t in s.producers && s.producers[t] == Built(p))
    && s.news == s.deletes + multiset(s.heap.Keys)
  }

  ghost predicate InvWith(s: State, chain: seq<Ptr>) {
    && !s.fault
    && Linked(s, chain)
    && ProducersOk(s, chain)
    && ConsumerOk(s, chain)
    && NothingLost(s, chain)
    && s.enqueued == s.dequeued + InFlight(s.consumer) + Items(s.heap, chain)
  }

  ghost predicate Inv(s: State) {
    exists chain :: InvWith(s, chain)
  }

  lemma ConstructedInv(stub: Ptr, junk: Item)
    ensures InvWith(Constructed(stub, junk), [stub])
  {
    var s := Constructed(stub, junk);
    assert s.heap.Keys == {stub};
  }

  /** Pending links and built nodes survive when their own thread does not move. */
  lemma OthersStay(s: State, s': State, t: Tid)
    requires forall u :: u in s.producers && u != t ==> u in s'.producers && s'.producers[u] == s.producers[u]
    requires t in s.producers ==> t in s'.producers && s.producers[t].Built?
    ensures forall p, n :: Pending(s, p, n) ==> Pending(s', p, n)
  {
    forall p, n | Pending(s, p, n)
      ensures Pending(s', p, n)
    {
      var u :| u in s.producers && s.producers[u] == Exchanged(n, p);
      assert s'.producers[u] == Exchanged(n, p);
    }
  }

  // New: a node nobody else can reach.

  lemma NewLinked(s: State, chain: seq<Ptr>, t: Tid, input: Item, at: Ptr)
    requires Linked(s, chain) && Enabled(s, New(t, input, at))
    ensures Linked(Next(s, New(t, input, at)), chain)
    ensures Items(Next(s, New(t, input, at)).heap, chain) == Items(s.heap, chain)
  {
    OthersStay(s, Next(s, New(t, input, at)), t);
  }

  lemma NewProducersOk(s: State, chain: seq<Ptr>, t: Tid, input: Item, at: Ptr)
    requires ProducersOk(s, chain) && Enabled(s, New(t, input, at))
    requires at !in chain && at !in Doomed(s.consumer)
    ensures ProducersOk(Next(s, New(t, input, at)), chain)
  {
  }

  lemma NewNothingLost(s: State, chain: seq<Ptr>, t: Tid, input: Item, at: Ptr)
    requires NothingLost(s, chain) && Enabled(s, New(t, input, at))
    ensures NothingLost(Next(s, New(t, input, at)), chain)
  {
    var s' := Next(s, New(t, input, at));
    assert s'.heap.Keys == s.heap.Keys + {at};
    assert s'.producers[t] == Built(at);
    forall p | p in s.heap && p !in chain && p !in Doomed(s.consumer)
      ensures exists u :: u in s'.producers && s'.producers[u] == Built(p)
    {
      var u :| u in s.producers && s.producers[u] == Built(p);
      assert s'.producers[u] == Built(p);
    }
  }

  lemma NewConsumerOk(s: State, chain: seq<Ptr>, t: Tid, input: Item, at: Ptr)
    requires ConsumerOk(s, chain) && Enabled(s, New(t, input, at))
    ensures ConsumerOk(Next(s, New(t, input, at)), chain)
  {
  }

  lemma NewKeepsInv(s: State, chain: seq<Ptr>, t: Tid, input: Item, at: Ptr)
    requires InvWith(s, chain) && Enabled(s, New(t, input, at))
    ensures InvWith(Next(s, New(t, input, at)), chain)
  {
    assert at !in chain && at !in Doomed(s.consumer);
    NewLinked(s, chain, t, input, at);
    NewProducersOk(s, chain, t, input, at);
    NewConsumerOk(s, chain, t, input, at);
    NewNothingLost(s, chain, t, input, at);
    hide Linked, ProducersOk, ConsumerOk, NothingLost, Items;
  }

  // Exchange: the node joins the chain behind a pending link.

  lemma ExchangeLinked(s: State, chain: seq<Ptr>, t: Tid)
    requires Linked(s, chain) && ProducersOk(s, chain) && Enabled(s, Exchange(t))
    ensures Linked(Next(s, Exchange(t)), chain + [s.producers[t].node])
    ensures Items(Next(s, Exchange(t)).heap, chain + [s.producers[t].node])
         == Items(s.heap, chain) + [s.heap[s.producers[t].node].data]
  {
    var s' := Next(s, Exchange(t));
    OthersStay(s, s', t);
    assert s'.producers[t] == Exchanged(s.producers[t].node, s.head);
    assert Pending(s', s.head, s.producers[t].node);
  }

  lemma ExchangeProducersOk(s: State, chain: seq<Ptr>, t: Tid)
    requires ProducersOk(s, chain) && Enabled(s, Exchange(t))
    requires |chain| > 0 && chain[|chain| - 1] == s.head && s.head in s.heap && s.heap[s.head].next == None
    ensures ProducersOk(Next(s, Exchange(t)), chain + [s.producers[t].node])
  {
    var node := s.producers[t].node;
    var chain' := chain + [node];
    assert chain'[|chain| - 1] == s.head && chain'[|chain|] == node;
    assert Adjacent(chain', s.head, node);
    AdjacentExtends(chain, node);
    hide Adjacent;
  }

  lemma ExchangeNothingLost(s: State, chain: seq<Ptr>, t: Tid)
    requires NothingLost(s, chain) && Enabled(s, Exchange(t)) && s.producers[t].node in s.heap
    ensures NothingLost(Next(s, Exchange(t)), chain + [s.producers[t].node])
  {
    var s' := Next(s, Exchange(t));
    forall p | p in s.heap && p !in chain + [s.producers[t].node] && p !in Doomed(s.consumer)
      ensures exists u :: u in s'.producers && s'.producers[u] == Built(p)
    {
      var u :| u in s.producers && s.producers[u] == Built(p);
      assert s'.producers[u] == Built(p);
    }
  }

  lemma ExchangeConsumerOk(s: State, chain: seq<Ptr>, t: Tid)
    requires ConsumerOk(s, chain) && Enabled(s, Exchange(t))
    ensures ConsumerOk(Next(s, Exchange(t)), chain + [s.producers[t].node])
  {
  }

  lemma ExchangeKeepsInv(s: State, chain: seq<Ptr>, t: Tid)
    requires InvWith(s, chain) && Enabled(s, Exchange(t))
    ensures InvWith(Next(s, Exchange(t)), chain + [s.producers[t].node])
  {
    assert chain[|chain| - 1] in chain;
    ExchangeLinked(s, chain, t);
    ExchangeProducersOk(s, chain, t);
    ExchangeConsumerOk(s, chain, t);
    ExchangeNothingLost(s, chain, t);
    assert s.producers[t].node in s.heap;
    hide Linked, ProducersOk, ConsumerOk, NothingLost, Items;
  }

  lemma AdjacentExtends(chain: seq<Ptr>, node: Ptr)
    ensures forall p, n :: Adjacent(chain, p, n) ==> Adjacent(chain + [node], p, n)
  {
    forall p, n | Adjacent(chain, p, n)
      ensures Adjacent(chain + [node], p, n)
    {
      var i :| 0 < i < |chain| && chain[i - 1] == p && chain[i] == n;
      assert (chain + [node])[i - 1] == p && (chain + [node])[i] == n;
    }
  }

  // Link: the pending link is stored; its node cannot have been freed.

  lemma LinkLinked(s: State, chain: seq<Ptr>, t: Tid)
    requires Linked(s, chain) && ProducersOk(s, chain) && Enabled(s, Link(t))
    ensures Linked(Next(s, Link(t)), chain)
    ensures Items(Next(s, Link(t)).heap, chain) == Items(s.heap, chain)
  {
    var s' := Next(s, Link(t));
    var Exchanged(node, prev) := s.producers[t];
    var i :| 0 < i < |chain| && chain[i - 1] == prev && chain[i] == node;
    forall k | 0 < k < |chain|
      ensures s'.heap[chain[k - 1]].next == Some(chain[k])
           || (s'.heap[chain[k - 1]].next == None && Pending(s', chain[k - 1], chain[k]))
    {
      if k != i && s.heap[chain[k - 1]].next == None {
        var u :| u in s.producers && s.producers[u] == Exchanged(chain[k], chain[k - 1]);
        assert u != t && s'.producers[u] == Exchanged(chain[k], chain[k - 1]);
      }
    }
  }

  /** No other producer is about to store into the same node. */
  lemma LinkIsAlone(s: State, chain: seq<Ptr>, t: Tid, u: Tid)
    requires Linked(s, chain) && ProducersOk(s, chain) && Enabled(s, Link(t)) && Enabled(s, Link(u)) && t != u
    ensures s.producers[t].prev != s.producers[u].prev
  {
    var i :| 0 < i < |chain| && chain[i - 1] == s.producers[t].prev && chain[i] == s.producers[t].node;
    var k :| 0 < k < |chain| && chain[k - 1] == s.producers[u].prev && chain[k] == s.producers[u].node;
  }

  lemma LinkProducersOk(s: State, chain: seq<Ptr>, t: Tid)
    requires Linked(s, chain) && ProducersOk(s, chain) && Enabled(s, Link(t))
    ensures ProducersOk(Next(s, Link(t)), chain)
  {
    var s' := Next(s, Link(t));
    assert s.producers[t].prev in chain;
    forall u | u in s'.producers
      ensures s'.producers[u].Exchanged? ==> s'.heap[s'.producers[u].prev].next == None
      ensures s'.producers[u].Built? ==> s'.heap[s'.producers[u].node].next == None
    {
      if s.producers[u].Exchanged? {
        LinkIsAlone(s, chain, t, u);
      }
    }
    hide Adjacent, Linked;
  }

  lemma LinkNothingLost(s: State, chain: seq<Ptr>, t: Tid)
    requires NothingLost(s, chain) && Enabled(s, Link(t)) && s.producers[t].prev in s.heap
    ensures NothingLost(Next(s, Link(t)), chain)
  {
    var s' := Next(s, Link(t));
    assert s'.heap.Keys == s.heap.Keys;
    forall p | p in s.heap && p !in chain && p !in Doomed(s.consumer)
      ensures exists u :: u in s'.producers && s'.producers[u] == Built(p)
    {
      var u :| u in s.producers && s.producers[u] == Built(p);
      assert s'.producers[u] == Built(p);
    }
  }

  lemma LinkConsumerOk(s: State, chain: seq<Ptr>, t: Tid)
    requires ConsumerOk(s, chain) && Enabled(s, Link(t))
    requires s.producers[t].prev in s.heap && s.heap[s.producers[t].prev].next == None
    ensures ConsumerOk(Next(s, Link(t)), chain)
  {
  }

  lemma LinkKeepsInv(s: State, chain: seq<Ptr>, t: Tid)
    requires InvWith(s, chain) && Enabled(s, Link(t))
    ensures InvWith(Next(s, Link(t)), chain)
  {
    LinkLinked(s, chain, t);
    LinkProducersOk(s, chain, t);
    LinkConsumerOk(s, chain, t);
    LinkNothingLost(s, chain, t);
    assert s.producers[t].prev in s.heap;
    hide Linked, ProducersOk, ConsumerOk, NothingLost, Items;
  }

  // The consumer's loads.

  lemma LoadedNext(s: State, chain: seq<Ptr>)
    requires Linked(s, chain) && s.heap[chain[0]].next != None
    ensures |chain| > 1 && s.heap[chain[0]].next == Some(chain[1])
  {
    assert |chain| > 1;
    assert s.heap[chain[1 - 1]].next == Some(chain[1]);
  }

  predicate IsLoad(step: Step) {
    step.LoadTail? || step.LoadNext? || step.TakeData?
  }

  /** A load that does not touch a freed node changes only what the consumer holds. */
  lemma LoadsAreSafe(s: State, chain: seq<Ptr>, step: Step)
    requires Linked(s, chain) && ConsumerOk(s, chain) && Enabled(s, step) && IsLoad(step)
    ensures var s' := Next(s, step); s' == s.(consumer := s'.consumer) && !s'.consumer.HasAdvanced?
    ensures ConsumerOk(Next(s, step), chain)
  {
    assert chain[0] in chain && (|chain| > 1 ==> chain[1] in chain);
    if step.LoadNext? && s.heap[chain[0]].next != None {
      LoadedNext(s, chain);
    }
  }

  lemma ConsumerMoves(s: State, s': State, chain: seq<Ptr>)
    requires Linked(s, chain) && ProducersOk(s, chain) && NothingLost(s, chain)
    requires s' == s.(consumer := s'.consumer) && !s.consumer.HasAdvanced? && !s'.consumer.HasAdvanced?
    ensures Linked(s', chain) && ProducersOk(s', chain) && NothingLost(s', chain)
  {
    assert forall p, n :: Pending(s, p, n) ==> Pending(s', p, n);
  }

  lemma LoadsKeepInv(s: State, chain: seq<Ptr>, step: Step)
    requires InvWith(s, chain) && Enabled(s, step) && IsLoad(step)
    ensures InvWith(Next(s, step), chain)
  {
    LoadsAreSafe(s, chain, step);
    ConsumerMoves(s, Next(s, step), chain);
    hide Linked, ProducersOk, ConsumerOk, NothingLost, Items;
  }

  // StoreTail: the chain loses its first node, which is now doomed.

  lemma StoreTailLinked(s: State, chain: seq<Ptr>)
    requires Linked(s, chain) && ConsumerOk(s, chain) && Enabled(s, StoreTail)
    ensures Linked(Next(s, StoreTail), chain[1..])
    ensures [s.consumer.item] + Items(s.heap, chain[1..]) == Items(s.heap, chain)
  {
    var s' := Next(s, StoreTail);
    var chain' := chain[1..];
    assert forall p, n :: Pending(s, p, n) ==> Pending(s', p, n);
    forall i | 0 < i < |chain'|
      ensures s'.heap[chain'[i - 1]].next == Some(chain'[i])
           || (s'.heap[chain'[i - 1]].next == None && Pending(s', chain'[i - 1], chain'[i]))
    {
      assert chain'[i - 1] == chain[(i + 1) - 1] && chain'[i] == chain[i + 1];
    }
  }

  lemma StoreTailAdjacent(s: State, chain: seq<Ptr>, t: Tid)
    requires Linked(s, chain) && ConsumerOk(s, chain) && ProducersOk(s, chain) && Enabled(s, StoreTail)
    requires t in s.producers && s.producers[t].Exchanged?
    ensures Adjacent(chain[1..], s.producers[t].prev, s.producers[t].node)
    ensures s.producers[t].node != chain[0]
  {
    var chain' := chain[1..];
    var i :| 0 < i < |chain| && chain[i - 1] == s.producers[t].prev && chain[i] == s.producers[t].node;
    assert i != 1;
    assert chain'[(i - 1) - 1] == chain[i - 1] && chain'[i - 1] == chain[i];
  }

  lemma StoreTailProducersOk(s: State, chain: seq<Ptr>)
    requires Linked(s, chain) && ConsumerOk(s, chain) && ProducersOk(s, chain) && Enabled(s, StoreTail)
    ensures ProducersOk(Next(s, StoreTail), chain[1..])
  {
    assert chain[0] in chain && forall p :: p in chain[1..] ==> p in chain;
    forall t | t in s.producers && s.producers[t].Exchanged? {
      StoreTailAdjacent(s, chain, t);
    }
    hide Adjacent, Linked;
  }

  lemma StoreTailNothingLost(s: State, chain: seq<Ptr>)
    requires NothingLost(s, chain) && |chain| > 0 && s.consumer.HasData? && s.consumer.tail == chain[0]
    ensures NothingLost(Next(s, StoreTail), chain[1..])
  {
    assert forall p :: p in chain ==> p == chain[0] || p in chain[1..];
  }

  lemma StoreTailKeepsInv(s: State, chain: seq<Ptr>)
    requires InvWith(s, chain) && Enabled(s, StoreTail)
    ensures |chain| > 1 && InvWith(Next(s, StoreTail), chain[1..])
  {
    hide Linked, ProducersOk, NothingLost, Items;
    StoreTailLinked(s, chain);
    StoreTailProducersOk(s, chain);
    StoreTailNothingLost(s, chain);
  }

  // Delete: the doomed node is in nobody's hands.

  lemma DeleteLinked(s: State, chain: seq<Ptr>)
    requires Linked(s, chain) && Enabled(s, Delete)
    ensures Linked(Next(s, Delete), chain)
    ensures Items(Next(s, Delete).heap, chain) == Items(s.heap, chain)
  {
    var s' := Next(s, Delete);
    assert forall p, n :: Pending(s, p, n) ==> Pending(s', p, n);
  }

  lemma DeleteProducersOk(s: State, chain: seq<Ptr>)
    requires Linked(s, chain) && ProducersOk(s, chain) && Enabled(s, Delete)
    ensures ProducersOk(Next(s, Delete), chain)
  {
    forall t | t in s.producers && s.producers[t].Exchanged?
      ensures s.producers[t].prev in chain
    {
      var i :| 0 < i < |chain| && chain[i - 1] == s.producers[t].prev && chain[i] == s.producers[t].node;
    }
    hide Adjacent;
  }

  lemma DeleteNothingLost(s: State, chain: seq<Ptr>)
    requires NothingLost(s, chain) && Enabled(s, Delete) && s.consumer.tail in s.heap
    ensures NothingLost(Next(s, Delete), chain)
  {
    var s' := Next(s, Delete);
    assert s'.heap.Keys == s.heap.Keys - {s.consumer.tail};
  }

  lemma DeleteKeepsInv(s: State, chain: seq<Ptr>)
    requires InvWith(s, chain) && Enabled(s, Delete)
    ensures InvWith(Next(s, Delete), chain)
  {
    DeleteLinked(s, chain);
    DeleteProducersOk(s, chain);
    DeleteNothingLost(s, chain);
    assert s.consumer.tail in s.heap;
    hide Linked, ProducersOk, ConsumerOk, NothingLost, Items;
  }

  /** Every step of every thread keeps the invariant. */
  lemma StepKeepsInv(s: State, step: Step)
    requires Inv(s)
    ensures Inv(Next(s, step))
  {
    hide InvWith, Next;
    var chain :| InvWith(s, chain);
    if !Enabled(s, step) {
      DisabledStep(s, step);
    } else {
      match step {
        case New(t, input, at) => NewKeepsInv(s, chain, t, input, at);
        case Exchange(t) => ExchangeKeepsInv(s, chain, t);
        case Link(t) => LinkKeepsInv(s, chain, t);
        case LoadTail => LoadsKeepInv(s, chain, step);
        case LoadNext => LoadsKeepInv(s, chain, step);
        case TakeData => LoadsKeepInv(s, chain, step);
        case StoreTail => StoreTailKeepsInv(s, chain);
        case Delete => DeleteKeepsInv(s, chain);
      }
    }
  }

  lemma DisabledStep(s: State, step: Step)
    requires !Enabled(s, step)
    ensures Next(s, step) == s
  {
  }

  lemma {:induction false} RunKeepsInv(s: State, steps: seq<Step>)
    requires Inv(s)
    ensures Inv(Run(s, steps))
  {
    hide Inv, Next;
    if steps != [] {
      RunKeepsInv(s, steps[..|steps| - 1]);
      StepKeepsInv(Run(s, steps[..|steps| - 1]), steps[|steps| - 1]);
    }
  }

  // What every run keeps.

  /** The shared state after any interleaving that starts from the constructor. */
  function After(stub: Ptr, junk: Item, steps: seq<Step>): State {
    Run(Constructed(stub, junk), steps)
  }

  lemma ReachableInv(stub: Ptr, junk: Item, steps: seq<Step>)
    ensures Inv(After(stub, junk, steps))
  {
    ConstructedInv(stub, junk);
    RunKeepsInv(Constructed(stub, junk), steps);
  }

  lemma PrefixOfHistory(s: State)
    requires Inv(s)
    ensures s.dequeued <= s.enqueued
  {
    hide Linked, ProducersOk, ConsumerOk, NothingLost, Items;
  }

  /** The nodes whose fields a step reads, writes or frees. */
  function Touched(s: State, step: Step): set<Ptr>
    requires Enabled(s, step)
  {
    match step
    case Link(t) => {s.producers[t].prev}
    case LoadNext => {s.consumer.tail}
    case TakeData => {s.consumer.next}
    case Delete => {s.consumer.tail}
    case _ => {}
  }

  lemma TouchedAreAllocated(s: State, chain: seq<Ptr>, step: Step)
    requires InvWith(s, chain) && Enabled(s, step)
    ensures Touched(s, step) <= s.heap.Keys
  {
    assert chain[0] in chain;
    hide Items, NothingLost;
  }

  /** No interleaving touches a freed node or frees one twice; whatever is freed was allocated. */
  lemma NoUseAfterFree(stub: Ptr, junk: Item, steps: seq<Step>, step: Step)
    ensures var s := After(stub, junk, steps);
            && !s.fault && s.deletes <= s.news
            && (Enabled(s, step) ==> Touched(s, step) <= s.heap.Keys)
  {
    ReachableInv(stub, junk, steps);
    var s := After(stub, junk, steps);
    var chain :| InvWith(s, chain);
    if Enabled(s, step) {
      TouchedAreAllocated(s, chain, step);
    }
    hide Linked, ProducersOk, ConsumerOk, Items, Enabled, Touched;
  }

  // What callers pass in, read off the steps.

  /** The argument of the thread's latest call to Enqueue, or nothing if it has made none. */
  function Argument(stub: Ptr, junk: Item, steps: seq<Step>, t: Tid): seq<Item> {
    if steps == [] then []
    else
      var before, step := steps[..|steps| - 1], steps[|steps| - 1];
      if step.New? && step.t == t && Enabled(After(stub, junk, before), step) then [step.input]
      else Argument(stub, junk, before, t)
  }

  /** The arguments of all calls to Enqueue, in order of head exchange. */
  function Arguments(stub: Ptr, junk: Item, steps: seq<Step>): seq<Item> {
    if steps == [] then []
    else
      var before, step := steps[..|steps| - 1], steps[|steps| - 1];
      Arguments(stub, junk, before) +
      (if step.Exchange? && Enabled(After(stub, junk, before), step) then Argument(stub, junk, before, step.t) else [])
  }

  /** A node that waits for its exchange holds this item. */
  predicate Waits(s: State, t: Tid, items: seq<Item>) {
    t in s.producers && s.producers[t].Built? && s.producers[t].node in s.heap ==>
      items == [s.heap[s.producers[t].node].data]
  }

  /** No step but the thread's own changes what its waiting node holds. */
  lemma WaitingNodeKept(s: State, step: Step, t: Tid, items: seq<Item>)
    requires Inv(s) && Waits(s, t, items) && !(step.New? && step.t == t && Enabled(s, step))
    ensures Waits(Next(s, step), t, items)
  {
    hide Linked, ConsumerOk, NothingLost, Items;
  }

  lemma {:induction false} WaitingNodeHolds(stub: Ptr, junk: Item, steps: seq<Step>, t: Tid)
    ensures Waits(After(stub, junk, steps), t, Argument(stub, junk, steps, t))
  {
    hide Inv;
    if steps != [] {
      var before, step := steps[..|steps| - 1], steps[|steps| - 1];
      var s := After(stub, junk, before);
      WaitingNodeHolds(stub, junk, before, t);
      ReachableInv(stub, junk, before);
      if !(step.New? && step.t == t && Enabled(s, step)) {
        WaitingNodeKept(s, step, t, Argument(stub, junk, before, t));
      }
    }
  }

  lemma BuiltIsAllocated(s: State, t: Tid)
    requires Inv(s) && t in s.producers
    ensures s.producers[t].node in s.heap
  {
    hide Linked, ConsumerOk, NothingLost, Items;
  }

  /** Only an exchange adds to the history: the item of its thread's waiting node. */
  lemma HistoryStep(s: State, step: Step, items: seq<Item>)
    requires step.Exchange? && Enabled(s, step) ==> Waits(s, step.t, items) && s.producers[step.t].node in s.heap
    ensures Next(s, step).enqueued == s.enqueued + (if step.Exchange? && Enabled(s, step) then items else [])
  {
  }

  /** The queue's history is that of its callers' arguments. */
  lemma {:induction false} EnqueuedAreArguments(stub: Ptr, junk: Item, steps: seq<Step>)
    ensures After(stub, junk, steps).enqueued == Arguments(stub, junk, steps)
  {
    hide Argument, Inv, Next, Waits;
    if steps != [] {
      var before, step := steps[..|steps| - 1], steps[|steps| - 1];
      var s := After(stub, junk, before);
      EnqueuedAreArguments(stub, junk, before);
      if step.Exchange? && Enabled(s, step) {
        WaitingNodeHolds(stub, junk, before, step.t);
        ReachableInv(stub, junk, before);
        BuiltIsAllocated(s, step.t);
        HistoryStep(s, step, Argument(stub, junk, before, step.t));
      } else {
        HistoryStep(s, step, []);
      }
    }
  }

  /** No loss, no duplication, no reordering: what has come out is a prefix of what callers put in. */
  lemma Fifo(stub: Ptr, junk: Item, steps: seq<Step>)
    ensures After(stub, junk, steps).dequeued <= Arguments(stub, junk, steps)
  {
    ReachableInv(stub, junk, steps);
    EnqueuedAreArguments(stub, junk, steps);
    PrefixOfHistory(After(stub, junk, steps));
    hide Inv, After, Arguments;
  }

  lemma HeadIsAllocated(s: State)
    requires Inv(s)
    ensures s.head in s.heap
  {
    var chain :| InvWith(s, chain);
    assert chain[|chain| - 1] in chain;
  }

  lemma RunThree(s: State, a: Step, b: Step, c: Step)
    ensures Run(s, [a, b, c]) == Next(Next(Next(s, a), b), c)
  {
    hide Next;
    var two, one := [a, b], [a];
    assert [a, b, c][..2] == two && two[..1] == one && one[..0] == [];
    calc {
      Run(s, [a, b, c]);
      Next(Run(s, two), c);
      Next(Next(Run(s, one), b), c);
      Next(Next(Next(s, a), b), c);
    }
  }

  lemma EnqueueShape(s: State, t: Tid, x: Item, at: Ptr)
    requires t !in s.producers && at !in s.heap && s.head in s.heap
    ensures var s' := Next(Next(Next(s, New(t, x, at)), Exchange(t)), Link(t));
            && s'.enqueued == s.enqueued + [x] && s'.dequeued == s.dequeued
            && s'.producers == s.producers && s'.consumer == s.consumer
            && s'.heap.Keys == s.heap.Keys + {at}
  {
    var s1 := Next(s, New(t, x, at));
    assert s1.heap.Keys == s.heap.Keys + {at};
    var s2 := Next(s1, Exchange(t));
    assert s2.heap == s1.heap && s2.producers[t] == Exchanged(at, s.head);
    var s3 := Next(s2, Link(t));
    assert s3.heap.Keys == s2.heap.Keys && s3.producers == s.producers;
  }

  /** One call to Enqueue with nothing in between: by a thread outside, with a node at a free address. */
  lemma EnqueueCall(s: State, t: Tid, x: Item, at: Ptr)
    requires Inv(s) && t !in s.producers && at !in s.heap
    ensures var s' := Run(s, [New(t, x, at), Exchange(t), Link(t)]);
            && Inv(s')
            && s'.enqueued == s.enqueued + [x] && s'.dequeued == s.dequeued
            && s'.producers == s.producers && s'.consumer == s.consumer
            && s'.heap.Keys == s.heap.Keys + {at}
  {
    hide Inv, Run, Next;
    RunThree(s, New(t, x, at), Exchange(t), Link(t));
    RunKeepsInv(s, [New(t, x, at), Exchange(t), Link(t)]);
    HeadIsAllocated(s);
    EnqueueShape(s, t, x, at);
  }

  /** A node is only ever freed after its successor has been linked in. */
  lemma FreedAfterLinked(stub: Ptr, junk: Item, steps: seq<Step>, t: Tid)
    ensures var s := After(stub, junk, steps);
            s.consumer.HasAdvanced? && t in s.producers ==>
              && s.producers[t].node != s.consumer.tail
              && (s.producers[t].Exchanged? ==> s.producers[t].prev != s.consumer.tail)
  {
    ReachableInv(stub, junk, steps);
    var s := After(stub, junk, steps);
    var chain :| InvWith(s, chain);
    if t in s.producers && s.producers[t].Exchanged? {
      var i :| 0 < i < |chain| && chain[i - 1] == s.producers[t].prev && chain[i] == s.producers[t].node;
      assert chain[i - 1] in chain;
    }
  }

  /**
   * Loading the tail's successor ends Dequeue with the answer false, or leads on to it.  The answer is
   * right unless a producer stands between its exchange and its link on the very node the consumer looks at.
   */
  lemma EmptyAnswer(stub: Ptr, junk: Item, steps: seq<Step>)
    ensures var s := After(stub, junk, steps);
            s.consumer.HasTail? ==>
              var c := Next(s, LoadNext).consumer;
              && Next(s, LoadNext) == s.(consumer := c)
              && (c.Outside? || c.HasNext?)
              && (c.Outside? <==>
                   s.dequeued == Arguments(stub, junk, steps) || exists n :: Pending(s, s.consumer.tail, n))
  {
    ReachableInv(stub, junk, steps);
    EnqueuedAreArguments(stub, junk, steps);
    var s := After(stub, junk, steps);
    var chain :| InvWith(s, chain);
    hide After, Arguments;
    if s.consumer.HasTail? {
      EmptyAnswerWith(s, chain);
    }
  }

  lemma EmptyAnswerWith(s: State, chain: seq<Ptr>)
    requires InvWith(s, chain) && s.consumer.HasTail?
    ensures s.consumer.tail in s.heap
    ensures s.heap[s.consumer.tail].next == None <==>
              s.dequeued == s.enqueued || exists n :: Pending(s, s.consumer.tail, n)
  {
    assert chain[0] in chain && s.consumer.tail == chain[0];
    if |chain| > 1 {
      assert chain[1 - 1] == chain[0];
      if s.heap[chain[0]].next == None {
        assert Pending(s, chain[0], chain[1]);
      } else {
        assert forall n :: !Pending(s, chain[0], n);
      }
    }
  }

  /** With no producer inside Enqueue's window, `false` means that everything has come out. */
  lemma FalseMeansEmpty(stub: Ptr, junk: Item, steps: seq<Step>)
    ensures var s := After(stub, junk, steps);
            s.consumer.HasTail? && (forall t :: t in s.producers ==> s.producers[t].Built?) ==>
              (Next(s, LoadNext).consumer.Outside? <==> s.dequeued == Arguments(stub, junk, steps))
  {
    hide After, Arguments;
    EmptyAnswer(stub, junk, steps);
  }

  // The destructor.

  /** The steps of one call to Dequeue that finds an item. */
  function DequeueSteps(): seq<Step> {
    [LoadTail, LoadNext, TakeData, StoreTail, Delete]
  }

  predicate Quiescent(s: State) {
    s.producers == map[] && s.consumer.Outside?
  }

  lemma RunFive(s: State)
    ensures Run(s, DequeueSteps()) == Next(Next(Next(Next(Next(s, LoadTail), LoadNext), TakeData), StoreTail), Delete)
  {
    hide Next;
    var d := DequeueSteps();
    assert d[..4] == [LoadTail, LoadNext, TakeData, StoreTail] && d[..4][..3] == [LoadTail, LoadNext, TakeData];
    assert d[..4][..3][..2] == [LoadTail, LoadNext] && d[..4][..3][..2][..1] == [LoadTail];
    assert d[..4][..3][..2][..1][..0] == [];
    calc {
      Run(s, d);
      Next(Run(s, d[..4]), Delete);
      Next(Next(Run(s, d[..4][..3]), StoreTail), Delete);
      Next(Next(Next(Run(s, d[..4][..3][..2]), TakeData), StoreTail), Delete);
      Next(Next(Next(Next(Run(s, d[..4][..3][..2][..1]), LoadNext), TakeData), StoreTail), Delete);
      Next(Next(Next(Next(Next(s, LoadTail), LoadNext), TakeData), StoreTail), Delete);
    }
  }

  /** What those five steps do when nobody else moves. */
  lemma DequeueShape(s: State)
    requires s.consumer.Outside? && s.tail in s.heap && s.heap[s.tail].next.Some? && s.heap[s.tail].next.value in s.heap
    ensures var n := s.heap[s.tail].next.value;
            Run(s, DequeueSteps())
            == s.(heap := s.heap - {s.tail}, tail := n, dequeued := s.dequeued + [s.heap[n].data],
                  deletes := s.deletes + multiset{s.tail})
  {
    RunFive(s);
  }

  lemma DequeueKeepsInv(s: State)
    requires Inv(s)
    ensures Inv(Run(s, DequeueSteps()))
  {
    hide Inv, Next, Run;
    RunKeepsInv(s, DequeueSteps());
  }

  /** In a quiescent state the tail's successor is stored unless everything has come out. */
  lemma QuiescentSuccessor(s: State)
    requires Inv(s) && Quiescent(s) && s.dequeued != s.enqueued
    ensures s.tail in s.heap && s.heap[s.tail].next.Some? && s.heap[s.tail].next.value in s.heap
  {
    var chain :| InvWith(s, chain);
    assert chain[0] in chain && |chain| > 1 && chain[1] in chain;
    assert s.heap[chain[1 - 1]].next == Some(chain[1]);
  }

  /** In a quiescent state with items left, one Dequeue returns the next one. */
  lemma QuiescentDequeue(s: State)
    requires Inv(s) && Quiescent(s) && s.dequeued != s.enqueued
    ensures var s' := Run(s, DequeueSteps());
            && Inv(s') && Quiescent(s')
            && s'.enqueued == s.enqueued && s'.news == s.news
            && |s.dequeued| < |s.enqueued| && s'.dequeued == s.enqueued[..|s.dequeued| + 1]
  {
    QuiescentSuccessor(s);
    DequeueShape(s);
    DequeueKeepsInv(s);
    PrefixOfHistory(Run(s, DequeueSteps()));
    hide Inv, Run;
  }

  /** The destructor's loop: Dequeue until it returns false. */
  ghost function Drained(s: State): (r: State)
    requires Inv(s) && Quiescent(s)
    ensures Inv(r) && Quiescent(r) && r.enqueued == r.dequeued == s.enqueued && r.news == s.news
    decreases |s.enqueued| - |s.dequeued|
  {
    if s.dequeued == s.enqueued then s
    else
      QuiescentDequeue(s);
      Drained(Run(s, DequeueSteps()))
  }

  /** Deleting the node that head still points to. */
  function DeleteHead(s: State): State {
    if s.head !in s.heap then s.(fault := true)
    else s.(heap := s.heap - {s.head}, deletes := s.deletes + multiset{s.head})
  }

  /** When everything has come out of a quiescent queue, one node is left. */
  lemma OneNodeLeft(s: State)
    requires Inv(s) && Quiescent(s) && s.dequeued == s.enqueued
    ensures s.heap.Keys == {s.head} && s.news == s.deletes + multiset{s.head} && !s.fault
  {
    var chain :| InvWith(s, chain);
    hide ProducersOk, ConsumerOk;
    assert |Items(s.heap, chain)| == 0;
    assert chain == [s.head];
    assert forall p :: p in s.heap ==> p in chain;
    assert s.head in chain;
    assert s.heap.Keys == {s.head};
  }

  /** Destruction from a quiescent state frees every node that is left, each exactly once. */
  lemma DestructionFreesAll(stub: Ptr, junk: Item, steps: seq<Step>)
    requires Quiescent(After(stub, junk, steps))
    ensures Inv(After(stub, junk, steps))
    ensures var s := DeleteHead(Drained(After(stub, junk, steps)));
            !s.fault && s.heap == map[] && s.deletes == s.news && s.dequeued == s.enqueued
  {
    ReachableInv(stub, junk, steps);
    hide Inv, After, Run;
    var r := Drained(After(stub, junk, steps));
    OneNodeLeft(r);
    assert (r.heap - {r.head}).Keys == {};
  }
}
