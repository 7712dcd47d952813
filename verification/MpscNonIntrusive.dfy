/**
  The non-intrusive multi-producer single-consumer queue of
  src/common/Threading/MPSCQueue.h, as a machine whose steps are the single
  atomic operations of Enqueue and Dequeue.  Any number of producers run beside
  one consumer and any interleaving is a run.  Steps are sequentially
  consistent.  A deleted address may be handed out again by a later allocation,
  and then is another node: a step through an old pointer to it is a fault.
 */
module MpscNonIntrusive {
  import opened Wrappers

  /** An address, and the number of the allocation that returned it. */
  datatype Node = Node(address: nat, life: nat)

  type Item = nat

  datatype Cell = Cell(data: Item, next: Option<Node>)

  /** Where a producer stands inside Enqueue; a producer not in the map is outside it. */
  datatype Producer =
    | HasNode(node: Node)                    // node allocated, _head not exchanged yet
    | MustLink(node: Node, prevHead: Node)   // _head exchanged, prevHead->Next not stored yet

  /** Where the consumer stands inside Dequeue. */
  datatype Consumer =
    | Ready
    | LoadedTail(tail: Node)
    | LoadedNext(tail: Node, next: Node)
    | ReadData(tail: Node, next: Node, result: Item)
    | StoredTail(tail: Node)

  datatype State = State(
    heap: map<Node, Cell>,            // the nodes currently allocated
    lives: nat,                       // how many allocations there were
    head: Node,
    tail: Node,
    producers: map<nat, Producer>,
    consumer: Consumer,
    enqueued: seq<Item>,              // items in the order of the exchanges of _head
    dequeued: seq<Item>)              // items handed out, in order

  datatype Step =
    | Alloc(p: nat, node: Node, item: Item)
    | Exchange(p: nat)
    | Link(p: nat)
    | LoadTail
    | LoadNext
    | LoadData
    | StoreTail
    | DeleteTail

  ghost predicate Init(s: State) {
    && s.heap.Keys == {s.head} && s.head.life < s.lives
    && s.heap[s.head].next == None
    && s.tail == s.head
    && s.producers == map[]
    && s.consumer == Ready
    && s.enqueued == [] && s.dequeued == []
  }

  /** May the step be taken?  `new` returns any address that is not in use at the time. */
  predicate Enabled(s: State, step: Step) {
    match step
    case Alloc(p, node, item) =>
      && p !in s.producers && node.life == s.lives
      && forall n :: n in s.heap ==> n.address != node.address
    case Exchange(p) => p in s.producers && s.producers[p].HasNode?
    case Link(p) => p in s.producers && s.producers[p].MustLink?
    case LoadTail => s.consumer.Ready?
    case LoadNext => s.consumer.LoadedTail?
    case LoadData => s.consumer.LoadedNext?
    case StoreTail => s.consumer.ReadData?
    case DeleteTail => s.consumer.StoredTail?
  }

  /** The node a step dereferences or deletes; it must still be allocated. */
  function Touches(s: State, step: Step): Option<Node>
    requires Enabled(s, step)
  {
    match step
    case Alloc(_, _, _) => None
    case Exchange(p) => Some(s.producers[p].node)    // its Data is read into the history
    case Link(p) => Some(s.producers[p].prevHead)
    case LoadTail => None
    case LoadNext => Some(s.consumer.tail)
    case LoadData => Some(s.consumer.next)
    case StoreTail => None
    case DeleteTail => Some(s.consumer.tail)
  }

  predicate Faults(s: State, step: Step)
    requires Enabled(s, step)
  {
    Touches(s, step).Some? && Touches(s, step).value !in s.heap
  }

  function Apply(s: State, step: Step): State
    requires Enabled(s, step) && !Faults(s, step)
  {
    match step
    case Alloc(p, node, item) =>
      s.(heap := s.heap[node := Cell(item, None)], lives := s.lives + 1, producers := s.producers[p := HasNode(node)])
    case Exchange(p) =>
      var node := s.producers[p].node;
      s.(head := node,
         producers := s.producers[p := MustLink(node, s.head)],
         enqueued := s.enqueued + [s.heap[node].data])
    case Link(p) =>
      var prev := s.producers[p].prevHead;
      s.(heap := s.heap[prev := s.heap[prev].(next := Some(s.producers[p].node))],
         producers := s.producers - {p})
    case LoadTail =>
      s.(consumer := LoadedTail(s.tail))
    case LoadNext =>
      var t := s.consumer.tail;
      if s.heap[t].next == None
      then s.(consumer := Ready)            // Dequeue returns false
      else s.(consumer := LoadedNext(t, s.heap[t].next.value))
    case LoadData =>
      s.(consumer := ReadData(s.consumer.tail, s.consumer.next, s.heap[s.consumer.next].data))
    case StoreTail =>
      s.(tail := s.consumer.next,
         consumer := StoredTail(s.consumer.tail),
         dequeued := s.dequeued + [s.consumer.result])
    case DeleteTail =>
      s.(heap := s.heap - {s.consumer.tail}, consumer := Ready)   // Dequeue returns true
  }

  /** The steps run one after another from `s`, each enabled and free of faults. */
  ghost predicate Runs(s: State, steps: seq<Step>, t: State)
    decreases |steps|
  {
    if steps == [] then s == t
    else
      && Enabled(s, steps[0]) && !Faults(s, steps[0])
      && Runs(Apply(s, steps[0]), steps[1..], t)
  }

  // ----- the invariant -------------------------------------------------------

  ghost predicate Distinct(c: seq<Node>) {
    forall i, j :: 0 <= i < j < |c| ==> c[i] != c[j]
  }

  ghost predicate Waiting(s: State, node: Node, prev: Node) {
    exists p :: p in s.producers && s.producers[p] == MustLink(node, prev)
  }

  /** The link from c[i] is in place, or its producer still owes it. */
  ghost predicate LinkOk(s: State, c: seq<Node>, i: nat)
    requires i + 1 < |c| && c[i] in s.heap
  {
    || s.heap[c[i]].next == Some(c[i + 1])
    || (s.heap[c[i]].next == None && Waiting(s, c[i + 1], c[i]))
  }

  /** `c` lists the nodes from _tail to _head; a missing link is one a producer still owes. */
  ghost predicate Chain(s: State, c: seq<Node>) {
    && |c| > 0 && c[0] == s.tail && c[|c| - 1] == s.head
    && Distinct(c)
    && (forall i :: 0 <= i < |c| ==> c[i] in s.heap)
    && s.heap[c[|c| - 1]].next == None
    && (forall i :: 0 <= i < |c| - 1 ==> LinkOk(s, c, i))
  }

  ghost predicate ProducerOk(s: State, c: seq<Node>, p: nat)
    requires p in s.producers
  {
    match s.producers[p]
    case HasNode(n) => n in s.heap && n !in c && s.heap[n].next == None
    case MustLink(n, prev) =>
      exists i :: 0 <= i < |c| - 1 && c[i] == prev && c[i + 1] == n
                  && prev in s.heap && s.heap[prev].next == None
  }

  ghost predicate ProducersOk(s: State, c: seq<Node>) {
    && (forall p :: p in s.producers ==> ProducerOk(s, c, p))
    && (forall p, q :: p in s.producers && q in s.producers && p != q ==>
          s.producers[p].node != s.producers[q].node)
  }

  ghost predicate ConsumerOk(s: State, c: seq<Node>) {
    match s.consumer
    case Ready => true
    case LoadedTail(t) => t == s.tail
    case LoadedNext(t, n) => t == s.tail && t in s.heap && s.heap[t].next == Some(n)
    case ReadData(t, n, r) =>
      t == s.tail && t in s.heap && s.heap[t].next == Some(n) && n in s.heap && r == s.heap[n].data
    case StoredTail(t) =>
      && t in s.heap && t !in c
      && forall p :: p in s.producers ==> s.producers[p].node != t
  }

  function Data(heap: map<Node, Cell>, c: seq<Node>): seq<Item>
    requires forall i :: 0 <= i < |c| ==> c[i] in heap
  {
    seq(|c|, i requires 0 <= i < |c| => heap[c[i]].data)
  }

  lemma DataCons(heap: map<Node, Cell>, c: seq<Node>)
    requires |c| > 0 && forall i :: 0 <= i < |c| ==> c[i] in heap
    ensures Data(heap, c) == [heap[c[0]].data] + Data(heap, c[1..])
  {
  }

  lemma DataSnoc(heap: map<Node, Cell>, c: seq<Node>, n: Node)
    requires |c| > 0 && n in heap && forall i :: 0 <= i < |c| ==> c[i] in heap
    ensures (c + [n])[1..] == c[1..] + [n]
    ensures Data(heap, (c + [n])[1..]) == Data(heap, c[1..]) + [heap[n].data]
  {
  }

  /** Every allocated node is accounted for: nothing leaks. */
  ghost predicate Owned(s: State, c: seq<Node>) {
    forall n :: n in s.heap ==> n in c || Held(s, n) || s.consumer == StoredTail(n)
  }

  /** Some producer has allocated the node and not published it yet. */
  ghost predicate Held(s: State, n: Node) {
    exists p :: p in s.producers && s.producers[p] == HasNode(n)
  }

  /** What every reachable state satisfies, for some chain `c`. */
  ghost predicate Inv(s: State, c: seq<Node>) {
    && Chain(s, c)
    && ProducersOk(s, c)
    && ConsumerOk(s, c)
    && Owned(s, c)
    && s.enqueued == s.dequeued + Data(s.heap, c[1..])
  }

  // ----- preservation --------------------------------------------------------

  /** The chain after a step: an exchange extends it, a tail store drops its first node. */
  function NextChain(s: State, c: seq<Node>, step: Step): seq<Node>
    requires Enabled(s, step)
  {
    match step
    case Exchange(p) => c + [s.producers[p].node]
    case StoreTail => if |c| > 0 then c[1..] else c
    case _ => c
  }

  lemma NoFault(s: State, c: seq<Node>, step: Step)
    requires Inv(s, c) && Enabled(s, step)
    ensures !Faults(s, step)
  {
    match step
    case Exchange(p) => assert ProducerOk(s, c, p);
    case Link(p) => assert ProducerOk(s, c, p);
    case LoadData =>
      var t, n := s.consumer.tail, s.consumer.next;
      assert c[0] != c[|c| - 1];
      assert LinkOk(s, c, 0);
    case _ =>
  }

  /** A link owed before a step is still owed after it if its producer did not move. */
  lemma StillWaiting(s: State, t: State, node: Node, prev: Node)
    requires Waiting(s, node, prev)
    requires forall q :: q in s.producers && s.producers[q] == MustLink(node, prev) ==>
               q in t.producers && t.producers[q] == s.producers[q]
    ensures Waiting(t, node, prev)
  {
    var q :| q in s.producers && s.producers[q] == MustLink(node, prev);
    assert t.producers[q] == MustLink(node, prev);
  }

  lemma StillHeld(s: State, t: State, n: Node)
    requires Held(s, n)
    requires forall q :: q in s.producers && s.producers[q] == HasNode(n) ==>
               q in t.producers && t.producers[q] == s.producers[q]
    ensures Held(t, n)
  {
    var q :| q in s.producers && s.producers[q] == HasNode(n);
    assert t.producers[q] == HasNode(n);
  }

  lemma AllocChain(s: State, c: seq<Node>, p: nat, node: Node, item: Item)
    requires Inv(s, c) && Enabled(s, Alloc(p, node, item))
    ensures Chain(Apply(s, Alloc(p, node, item)), c)
  {
    var t := Apply(s, Alloc(p, node, item));
    forall i | 0 <= i < |c| - 1 ensures LinkOk(t, c, i) {
      assert LinkOk(s, c, i);
      if s.heap[c[i]].next == None { StillWaiting(s, t, c[i + 1], c[i]); }
    }
  }

  lemma AllocProducers(s: State, c: seq<Node>, p: nat, node: Node, item: Item)
    requires Inv(s, c) && Enabled(s, Alloc(p, node, item))
    ensures ProducersOk(Apply(s, Alloc(p, node, item)), c)
  {
    var t := Apply(s, Alloc(p, node, item));
    forall q | q in s.producers ensures ProducerOk(t, c, q) && s.producers[q].node != node {
      assert ProducerOk(s, c, q);
    }
    assert ProducerOk(t, c, p);
  }

  lemma AllocKeeps(s: State, c: seq<Node>, p: nat, node: Node, item: Item)
    requires Inv(s, c) && Enabled(s, Alloc(p, node, item))
    ensures Inv(Apply(s, Alloc(p, node, item)), c)
  {
    var t := Apply(s, Alloc(p, node, item));
    AllocChain(s, c, p, node, item);
    AllocProducers(s, c, p, node, item);
    assert t.producers[p] == HasNode(node);
    forall n | n in t.heap && n !in c && t.consumer != StoredTail(n) ensures Held(t, n) {
      if n != node { StillHeld(s, t, n); }
    }
  }

  lemma ExchangeChain(s: State, c: seq<Node>, p: nat)
    requires Inv(s, c) && Enabled(s, Exchange(p)) && !Faults(s, Exchange(p))
    ensures Chain(Apply(s, Exchange(p)), c + [s.producers[p].node])
  {
    var t := Apply(s, Exchange(p));
    var node := s.producers[p].node;
    var d := c + [node];
    assert ProducerOk(s, c, p);
    forall i | 0 <= i < |d| - 1 ensures LinkOk(t, d, i) {
      if i < |c| - 1 {
        assert LinkOk(s, c, i);
        if s.heap[c[i]].next == None { StillWaiting(s, t, c[i + 1], c[i]); }
      } else {
        assert t.producers[p] == MustLink(d[i + 1], d[i]);
      }
    }
  }

  lemma ExchangeProducers(s: State, c: seq<Node>, p: nat)
    requires Inv(s, c) && Enabled(s, Exchange(p)) && !Faults(s, Exchange(p))
    ensures ProducersOk(Apply(s, Exchange(p)), c + [s.producers[p].node])
  {
    var t := Apply(s, Exchange(p));
    var d := c + [s.producers[p].node];
    forall q | q in t.producers ensures ProducerOk(t, d, q) {
      assert ProducerOk(s, c, q);
      if q == p {
        assert d[|c| - 1] == s.head && d[|c|] == s.producers[p].node;
      } else if s.producers[q].MustLink? {
        var i :| 0 <= i < |c| - 1 && c[i] == s.producers[q].prevHead && c[i + 1] == s.producers[q].node;
        assert d[i] == s.producers[q].prevHead && d[i + 1] == s.producers[q].node;
      }
    }
  }

  lemma ExchangeOwned(s: State, c: seq<Node>, p: nat)
    requires Inv(s, c) && Enabled(s, Exchange(p)) && !Faults(s, Exchange(p))
    ensures Owned(Apply(s, Exchange(p)), c + [s.producers[p].node])
  {
    var t := Apply(s, Exchange(p));
    var d := c + [s.producers[p].node];
    forall n | n in t.heap && n !in d && t.consumer != StoredTail(n) ensures Held(t, n) {
      assert d[|c|] == s.producers[p].node;
      assert n !in c;
      StillHeld(s, t, n);
    }
  }

  lemma ExchangeKeeps(s: State, c: seq<Node>, p: nat)
    requires Inv(s, c) && Enabled(s, Exchange(p)) && !Faults(s, Exchange(p))
    ensures Inv(Apply(s, Exchange(p)), NextChain(s, c, Exchange(p)))
  {
    ExchangeChain(s, c, p);
    ExchangeProducers(s, c, p);
    ExchangeOwned(s, c, p);
    DataSnoc(s.heap, c, s.producers[p].node);
  }

  lemma LinkChain(s: State, c: seq<Node>, p: nat)
    requires Inv(s, c) && Enabled(s, Link(p)) && !Faults(s, Link(p))
    ensures Chain(Apply(s, Link(p)), c)
  {
    var t := Apply(s, Link(p));
    var MustLink(node, prev) := s.producers[p];
    assert ProducerOk(s, c, p);
    var k :| 0 <= k < |c| - 1 && c[k] == prev && c[k + 1] == node;
    forall i | 0 <= i < |c| - 1 ensures LinkOk(t, c, i) {
      assert LinkOk(s, c, i);
      if i != k && s.heap[c[i]].next == None { StillWaiting(s, t, c[i + 1], c[i]); }
    }
  }

  lemma LinkProducers(s: State, c: seq<Node>, p: nat)
    requires Inv(s, c) && Enabled(s, Link(p)) && !Faults(s, Link(p))
    ensures ProducersOk(Apply(s, Link(p)), c)
  {
    var t := Apply(s, Link(p));
    assert ProducerOk(s, c, p);
    forall q | q in t.producers ensures ProducerOk(t, c, q) {
      assert ProducerOk(s, c, q);
      assert s.producers[q].node != s.producers[p].node;
    }
  }

  lemma LinkKeeps(s: State, c: seq<Node>, p: nat)
    requires Inv(s, c) && Enabled(s, Link(p)) && !Faults(s, Link(p))
    ensures Inv(Apply(s, Link(p)), c)
  {
    var t := Apply(s, Link(p));
    LinkChain(s, c, p);
    LinkProducers(s, c, p);
    LinkOwned(s, c, p);
    LinkData(s, c, p);
  }

  lemma LinkOwned(s: State, c: seq<Node>, p: nat)
    requires Inv(s, c) && Enabled(s, Link(p)) && !Faults(s, Link(p))
    ensures Owned(Apply(s, Link(p)), c)
  {
    var t := Apply(s, Link(p));
    forall n | n in t.heap && n !in c && t.consumer != StoredTail(n) ensures Held(t, n) {
      StillHeld(s, t, n);
    }
  }

  lemma LinkData(s: State, c: seq<Node>, p: nat)
    requires Inv(s, c) && Enabled(s, Link(p)) && !Faults(s, Link(p))
    ensures forall n :: n in c ==> n in Apply(s, Link(p)).heap
    ensures Data(Apply(s, Link(p)).heap, c[1..]) == Data(s.heap, c[1..])
  {
    assert forall n :: n in c ==> n in s.heap;
  }

  lemma StoreTailChain(s: State, c: seq<Node>)
    requires Inv(s, c) && Enabled(s, StoreTail)
    ensures |c| > 1 && s.heap[c[0]].next == Some(c[1])
    ensures Chain(Apply(s, StoreTail), c[1..])
  {
    var t := Apply(s, StoreTail);
    var d := c[1..];
    assert c[0] != c[|c| - 1];
    assert LinkOk(s, c, 0);
    forall i | 0 <= i < |d| - 1 ensures LinkOk(t, d, i) {
      assert LinkOk(s, c, i + 1);
      if s.heap[d[i]].next == None { StillWaiting(s, t, d[i + 1], d[i]); }
    }
  }

  lemma StoreTailProducers(s: State, c: seq<Node>)
    requires Inv(s, c) && Enabled(s, StoreTail)
    ensures |c| > 1 && ProducersOk(Apply(s, StoreTail), c[1..])
    ensures forall q :: q in s.producers ==> s.producers[q].node != c[0]
  {
    StoreTailChain(s, c);
    var t := Apply(s, StoreTail);
    var d := c[1..];
    forall q | q in t.producers ensures ProducerOk(t, d, q) && t.producers[q].node != c[0] {
      assert ProducerOk(s, c, q);
      if s.producers[q].MustLink? {
        var i :| 0 <= i < |c| - 1 && c[i] == s.producers[q].prevHead && c[i + 1] == s.producers[q].node
                 && s.heap[c[i]].next == None;
        assert d[i - 1] == c[i] && d[i] == c[i + 1];
      }
    }
  }

  lemma StoreTailOwned(s: State, c: seq<Node>)
    requires Inv(s, c) && Enabled(s, StoreTail) && |c| > 1
    ensures Owned(Apply(s, StoreTail), c[1..])
  {
    var t := Apply(s, StoreTail);
    forall n | n in t.heap && n !in c[1..] && t.consumer != StoredTail(n) ensures Held(t, n) {
      assert n !in c;
      StillHeld(s, t, n);
    }
  }

  lemma StoreTailHistory(s: State, c: seq<Node>)
    requires Inv(s, c) && Enabled(s, StoreTail) && |c| > 1 && s.heap[c[0]].next == Some(c[1])
    requires forall q :: q in s.producers ==> s.producers[q].node != c[0]
    ensures ConsumerOk(Apply(s, StoreTail), c[1..])
    ensures s.enqueued == s.dequeued + [s.consumer.result] + Data(s.heap, c[1..][1..])
  {
    DataCons(s.heap, c[1..]);
    assert s.dequeued + ([s.consumer.result] + Data(s.heap, c[1..][1..]))
        == s.dequeued + [s.consumer.result] + Data(s.heap, c[1..][1..]);
  }

  lemma StoreTailKeeps(s: State, c: seq<Node>)
    requires Inv(s, c) && Enabled(s, StoreTail)
    ensures Inv(Apply(s, StoreTail), NextChain(s, c, StoreTail))
  {
    StoreTailChain(s, c);
    StoreTailProducers(s, c);
    StoreTailOwned(s, c);
    StoreTailHistory(s, c);
  }

  lemma DeleteTailKeeps(s: State, c: seq<Node>)
    requires Inv(s, c) && Enabled(s, DeleteTail)
    ensures Inv(Apply(s, DeleteTail), c)
  {
    var t := Apply(s, DeleteTail);
    forall i | 0 <= i < |c| - 1 ensures LinkOk(t, c, i) {
      assert LinkOk(s, c, i);
      if s.heap[c[i]].next == None { StillWaiting(s, t, c[i + 1], c[i]); }
    }
    forall q | q in t.producers ensures ProducerOk(t, c, q) {
      assert ProducerOk(s, c, q);
    }
    forall n | n in t.heap && n !in c ensures Held(t, n) {
      StillHeld(s, t, n);
    }
    assert Data(t.heap, c[1..]) == Data(s.heap, c[1..]);
  }

  lemma LoadKeeps(s: State, c: seq<Node>, step: Step)
    requires Inv(s, c) && Enabled(s, step) && !Faults(s, step)
    requires step.LoadTail? || step.LoadNext? || step.LoadData?
    ensures Inv(Apply(s, step), c)
  {
    var t := Apply(s, step);
    forall i | 0 <= i < |c| - 1 ensures LinkOk(t, c, i) {
      assert LinkOk(s, c, i);
      if s.heap[c[i]].next == None { StillWaiting(s, t, c[i + 1], c[i]); }
    }
    forall q | q in t.producers ensures ProducerOk(t, c, q) {
      assert ProducerOk(s, c, q);
    }
    forall n | n in t.heap && n !in c ensures Held(t, n) {
      StillHeld(s, t, n);
    }
  }

  /** Every enabled step of a good state is safe and leads to a good state. */
  lemma StepKeepsInv(s: State, c: seq<Node>, step: Step)
    requires Inv(s, c) && Enabled(s, step)
    ensures !Faults(s, step)
    ensures Inv(Apply(s, step), NextChain(s, c, step))
  {
    NoFault(s, c, step);
    match step
    case Alloc(p, node, item) => AllocKeeps(s, c, p, node, item);
    case Exchange(p) => ExchangeKeeps(s, c, p);
    case Link(p) => LinkKeeps(s, c, p);
    case StoreTail => StoreTailKeeps(s, c);
    case DeleteTail => DeleteTailKeeps(s, c);
    case _ => LoadKeeps(s, c, step);
  }

  lemma {:induction false} RunKeepsInv(s: State, c: seq<Node>, steps: seq<Step>, t: State) returns (d: seq<Node>)
    requires Inv(s, c) && Runs(s, steps, t)
    ensures Inv(t, d)
    decreases |steps|
  {
    if steps == [] {
      d := c;
    } else {
      StepKeepsInv(s, c, steps[0]);
      d := RunKeepsInv(Apply(s, steps[0]), NextChain(s, c, steps[0]), steps[1..], t);
    }
  }

  lemma ReachableInv(s: State, steps: seq<Step>, t: State) returns (c: seq<Node>)
    requires Init(s) && Runs(s, steps, t)
    ensures Inv(t, c)
  {
    assert Inv(s, [s.head]);
    c := RunKeepsInv(s, [s.head], steps, t);
  }

  // ----- the theorems --------------------------------------------------------

  /**
    FIFO without loss or duplication: after any run the items handed out are a
    prefix of the items in exchange order, and what is missing is exactly what
    the nodes after _tail hold.
   */
  lemma Fifo(s: State, steps: seq<Step>, t: State) returns (c: seq<Node>)
    requires Init(s) && Runs(s, steps, t)
    ensures Chain(t, c)
    ensures t.enqueued == t.dequeued + Data(t.heap, c[1..])
  {
    c := ReachableInv(s, steps, t);
  }

  /**
    No step of any run reads, writes or deletes a node that has been deleted, not
    even when its address is in use again.
   */
  lemma MemorySafe(s: State, steps: seq<Step>, t: State, step: Step)
    requires Init(s) && Runs(s, steps, t) && Enabled(t, step)
    ensures !Faults(t, step)
  {
    var c := ReachableInv(s, steps, t);
    NoFault(t, c, step);
  }

  /** A node is deleted only once the producer that got it as prevHead has stored its link. */
  lemma DeletedOnlyAfterLink(s: State, steps: seq<Step>, t: State, p: nat)
    requires Init(s) && Runs(s, steps, t)
    requires Enabled(t, DeleteTail) && p in t.producers && t.producers[p].MustLink?
    ensures t.producers[p].prevHead != t.consumer.tail && t.producers[p].node != t.consumer.tail
  {
    var c := ReachableInv(s, steps, t);
    assert ProducerOk(t, c, p);
  }

  /**
    Dequeue returns false exactly when, as it loads the link, the queue is empty
    or the producer that took the current tail as prevHead has not linked yet.
   */
  lemma FalseMeansEmptyOrPending(s: State, steps: seq<Step>, t: State)
    requires Init(s) && Runs(s, steps, t)
    requires Enabled(t, LoadNext) && !Faults(t, LoadNext)
    ensures Apply(t, LoadNext).consumer == Ready <==>
            t.enqueued == t.dequeued || exists n :: Waiting(t, n, t.tail)
  {
    var c := ReachableInv(s, steps, t);
    if |c| == 1 {
      assert t.enqueued == t.dequeued;
    } else {
      assert |Data(t.heap, c[1..])| > 0;
      assert t.enqueued != t.dequeued;
      assert LinkOk(t, c, 0);
      forall p | p in t.producers && t.heap[c[0]].next != None
        ensures t.producers[p].HasNode? || t.producers[p].prevHead != t.tail
      {
        assert ProducerOk(t, c, p);
      }
    }
  }

  // ----- the destructor ------------------------------------------------------

  /** The state when nobody is inside Enqueue or Dequeue, as the destructor expects. */
  ghost predicate Quiescent(s: State) {
    s.producers == map[] && s.consumer == Ready
  }

  const DEQUEUE: seq<Step> := [LoadTail, LoadNext, LoadData, StoreTail, DeleteTail]

  lemma {:induction false} RunsAppend(s: State, a: seq<Step>, t: State, b: seq<Step>, u: State)
    requires Runs(s, a, t) && Runs(t, b, u)
    ensures Runs(s, a + b, u)
    decreases |a|
  {
    if a == [] {
      assert a + b == b;
    } else {
      assert (a + b)[0] == a[0] && (a + b)[1..] == a[1..] + b;
      RunsAppend(Apply(s, a[0]), a[1..], t, b, u);
    }
  }

  lemma RunsStep(s: State, step: Step, rest: seq<Step>, t: State)
    requires Enabled(s, step) && !Faults(s, step) && Runs(Apply(s, step), rest, t)
    ensures Runs(s, [step] + rest, t)
  {
    assert ([step] + rest)[1..] == rest;
  }

  /** The first three steps of a quiet Dequeue load the oldest item. */
  lemma QuietLoads(s: State, c: seq<Node>) returns (t: State)
    requires Inv(s, c) && Quiescent(s) && |c| > 1
    ensures Runs(s, [LoadTail, LoadNext, LoadData], t) && Inv(t, c)
    ensures t == s.(consumer := ReadData(c[0], c[1], s.heap[c[1]].data))
  {
    assert LinkOk(s, c, 0);
    StepKeepsInv(s, c, LoadTail);
    var s1 := Apply(s, LoadTail);
    StepKeepsInv(s1, c, LoadNext);
    var s2 := Apply(s1, LoadNext);
    StepKeepsInv(s2, c, LoadData);
    t := Apply(s2, LoadData);
    RunsStep(s2, LoadData, [], t);
    RunsStep(s1, LoadNext, [LoadData], t);
    RunsStep(s, LoadTail, [LoadNext, LoadData], t);
  }

  /** One quiet Dequeue of a nonempty queue hands out the oldest item. */
  lemma QuietDequeue(s: State, c: seq<Node>) returns (t: State)
    requires Inv(s, c) && Quiescent(s) && |c| > 1
    ensures Runs(s, DEQUEUE, t) && Inv(t, c[1..]) && Quiescent(t)
    ensures t.enqueued == s.enqueued
    ensures t.dequeued == s.dequeued + [s.heap[c[1]].data]
  {
    var s3 := QuietLoads(s, c);
    StepKeepsInv(s3, c, StoreTail);
    var s4 := Apply(s3, StoreTail);
    StepKeepsInv(s4, c[1..], DeleteTail);
    t := Apply(s4, DeleteTail);
    RunsStep(s4, DeleteTail, [], t);
    RunsStep(s3, StoreTail, [DeleteTail], t);
    RunsAppend(s, [LoadTail, LoadNext, LoadData], s3, [StoreTail, DeleteTail], t);
  }

  /** n calls of Dequeue. */
  function Dequeues(n: nat): seq<Step> {
    if n == 0 then [] else DEQUEUE + Dequeues(n - 1)
  }

  /** Run alone, repeated calls of Dequeue hand out every item in order and leave one node. */
  lemma {:induction false} Drain(s: State, c: seq<Node>) returns (t: State)
    requires Inv(s, c) && Quiescent(s)
    ensures Runs(s, Dequeues(|c| - 1), t) && Inv(t, [t.head]) && Quiescent(t)
    ensures t.dequeued == s.enqueued == t.enqueued
    decreases |c|
  {
    if |c| == 1 {
      t := s;
      assert c == [s.head];
    } else {
      var u := QuietDequeue(s, c);
      t := Drain(u, c[1..]);
      RunsAppend(s, DEQUEUE, u, Dequeues(|c| - 2), t);
    }
  }

  /** delete front */
  function DeleteFront(s: State): State
    requires s.head in s.heap
  {
    s.(heap := s.heap - {s.head})
  }

  /**
    The destructor after any run that left nobody inside: one call of Dequeue for
    every item still queued, in order; one more that returns false; and after the
    front is deleted no node is left.
   */
  lemma DestructorDrains(s: State, run: seq<Step>, t: State) returns (u: State)
    requires Init(s) && Runs(s, run, t) && Quiescent(t)
    ensures |t.dequeued| <= |t.enqueued|
    ensures Runs(t, Dequeues(|t.enqueued| - |t.dequeued|) + [LoadTail, LoadNext], u)
    ensures u.consumer == Ready && u.dequeued == t.enqueued
    ensures u.head in u.heap && DeleteFront(u).heap == map[]
  {
    var c := ReachableInv(s, run, t);
    assert |Data(t.heap, c[1..])| == |c| - 1;
    var v := Drain(t, c);
    StepKeepsInv(v, [v.head], LoadTail);
    var w := Apply(v, LoadTail);
    StepKeepsInv(w, [w.head], LoadNext);
    u := Apply(w, LoadNext);
    RunsStep(w, LoadNext, [], u);
    RunsStep(v, LoadTail, [LoadNext], u);
    RunsAppend(t, Dequeues(|c| - 1), v, [LoadTail, LoadNext], u);
    assert u.heap.Keys == {u.head};
  }
}
