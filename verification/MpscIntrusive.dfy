/**
  The intrusive multi-producer single-consumer queue of
  src/common/Threading/MPSCQueue.h, as a machine whose steps are the single
  atomic operations of Enqueue and Dequeue.  The links live inside the items; a
  dummy node, owned by the queue, stands in the chain when it would run empty.
  Any number of producers run beside one consumer; steps are sequentially
  consistent.  Clients create, free and enqueue only items they own.
 */
module MpscIntrusive {
  import opened Wrappers

  type Node = nat

  /** Where a producer stands inside Enqueue; a producer not in the map is outside it. */
  datatype Producer =
    | Taken(item: Node)                       // called with item
    | Cleared(item: Node)                     // item's link stored null
    | MustLink(item: Node, prevHead: Node)    // _head exchanged, prevHead's link not stored yet

  /** Where the consumer stands inside Dequeue. */
  datatype Consumer =
    | Ready
    | GotTail(tail: Node)
    | AtDummy(succ: Node)                     // tail is the dummy and has a successor
    | Skipped(tail: Node)                     // _tail moved past the dummy
    | Checked(tail: Node, next: Option<Node>) // tail is an item, next its link as loaded
    | Lone(tail: Node)                        // tail was also the head: Enqueue(dummy) begins
    | DummyCleared(tail: Node)
    | DummyOwed(tail: Node, prevHead: Node)
    | DummyLinked(tail: Node)

  datatype State = State(
    dummy: Node,
    link: map<Node, Option<Node>>,   // the links of the live nodes
    owned: set<Node>,                // live items in the hands of clients
    head: Node,
    tail: Node,
    producers: map<nat, Producer>,
    consumer: Consumer,
    quiet: bool,                     // no link was owed by a producer since Dequeue was entered
    enqueued: seq<Node>,             // items in the order of the producers' exchanges of _head
    dequeued: seq<Node>)             // items handed out, in order

  datatype Step =
    | Create(item: Node)             // a client makes an item; its link is arbitrary
    | Free(item: Node)               // a client destroys an item it owns
    | Begin(p: nat, item: Node)
    | Clear(p: nat)
    | Exchange(p: nat)
    | Link(p: nat)
    | LoadTail
    | LoadNext
    | SkipDummy
    | ReloadNext
    | TakeItem
    | LoadHead
    | ClearDummy
    | ExchangeDummy
    | LinkDummy
    | LoadAgain

  ghost predicate Init(s: State) {
    && s.link == map[s.dummy := None]
    && s.owned == {}
    && s.head == s.dummy && s.tail == s.dummy
    && s.producers == map[]
    && s.consumer == Ready
    && s.enqueued == [] && s.dequeued == []
  }

  predicate Enabled(s: State, step: Step) {
    match step
    case Create(item) => item !in s.link
    case Free(item) => item in s.owned
    case Begin(p, item) => p !in s.producers && item in s.owned
    case Clear(p) => p in s.producers && s.producers[p].Taken?
    case Exchange(p) => p in s.producers && s.producers[p].Cleared?
    case Link(p) => p in s.producers && s.producers[p].MustLink?
    case LoadTail => s.consumer.Ready?
    case LoadNext => s.consumer.GotTail?
    case SkipDummy => s.consumer.AtDummy?
    case ReloadNext => s.consumer.Skipped?
    case TakeItem => s.consumer.Checked? && s.consumer.next.Some?
    case LoadHead => s.consumer.Checked? && s.consumer.next.None?
    case ClearDummy => s.consumer.Lone?
    case ExchangeDummy => s.consumer.DummyCleared?
    case LinkDummy => s.consumer.DummyOwed?
    case LoadAgain => s.consumer.DummyLinked?
  }

  /** The node whose link a step of the queue reads or writes. */
  function Touches(s: State, step: Step): Option<Node>
    requires Enabled(s, step)
  {
    match step
    case Clear(p) => Some(s.producers[p].item)
    case Link(p) => Some(s.producers[p].prevHead)
    case LoadNext => Some(s.consumer.tail)
    case ReloadNext => Some(s.consumer.tail)
    case ClearDummy => Some(s.dummy)
    case LinkDummy => Some(s.consumer.prevHead)
    case LoadAgain => Some(s.consumer.tail)
    case _ => None
  }

  /** The queue touches the link of a freed node or of an item a client owns. */
  predicate Faults(s: State, step: Step)
    requires Enabled(s, step)
  {
    var n := Touches(s, step);
    n.Some? && (n.value !in s.link || n.value in s.owned)
  }

  function Apply(s: State, step: Step): State
    requires Enabled(s, step) && !Faults(s, step)
  {
    match step
    case Create(item) => s.(link := s.link[item := None], owned := s.owned + {item})
    case Free(item) => s.(link := s.link - {item}, owned := s.owned - {item})
    case Begin(p, item) =>
      s.(owned := s.owned - {item}, producers := s.producers[p := Taken(item)])
    case Clear(p) =>
      var item := s.producers[p].item;
      s.(link := s.link[item := None], producers := s.producers[p := Cleared(item)])
    case Exchange(p) =>
      var item := s.producers[p].item;
      s.(head := item,
         producers := s.producers[p := MustLink(item, s.head)],
         quiet := false,
         enqueued := s.enqueued + [item])
    case Link(p) =>
      s.(link := s.link[s.producers[p].prevHead := Some(s.producers[p].item)],
         producers := s.producers - {p})
    case LoadTail =>
      s.(consumer := GotTail(s.tail),
         quiet := forall p :: p in s.producers ==> !s.producers[p].MustLink?)
    case LoadNext =>
      var t := s.consumer.tail;
      var next := s.link[t];
      if t != s.dummy then s.(consumer := Checked(t, next))
      else if next == None then s.(consumer := Ready)          // Dequeue returns false
      else s.(consumer := AtDummy(next.value))
    case SkipDummy =>
      s.(tail := s.consumer.succ, consumer := Skipped(s.consumer.succ))
    case ReloadNext =>
      s.(consumer := Checked(s.consumer.tail, s.link[s.consumer.tail]))
    case TakeItem =>                                            // Dequeue returns true
      var t := s.consumer.tail;
      s.(tail := s.consumer.next.value, consumer := Ready,
         owned := s.owned + {t}, dequeued := s.dequeued + [t])
    case LoadHead =>
      var t := s.consumer.tail;
      s.(consumer := if t != s.head then Ready else Lone(t))    // Ready: Dequeue returns false
    case ClearDummy =>
      s.(link := s.link[s.dummy := None], consumer := DummyCleared(s.consumer.tail))
    case ExchangeDummy =>
      s.(head := s.dummy, consumer := DummyOwed(s.consumer.tail, s.head))
    case LinkDummy =>
      s.(link := s.link[s.consumer.prevHead := Some(s.dummy)], consumer := DummyLinked(s.consumer.tail))
    case LoadAgain =>
      var t := s.consumer.tail;
      s.(consumer := if s.link[t] == None then Ready else Checked(t, s.link[t]))
  }

  ghost predicate Runs(s: State, steps: seq<Step>, t: State)
    decreases |steps|
  {
    if steps == [] then s == t
    else
      && Enabled(s, steps[0]) && !Faults(s, steps[0])
      && Runs(Apply(s, steps[0]), steps[1..], t)
  }

  // ----- the invariant -------------------------------------------------------

  ghost predicate Distinct(c: seq<Node>) {
    forall i, j :: 0 <= i < j < |c| ==> c[i] != c[j]
  }

  /** A producer, or the consumer with the dummy, owes the link from prev to node. */
  ghost predicate Owed(s: State, node: Node, prev: Node) {
    || (exists p :: p in s.producers && s.producers[p] == MustLink(node, prev))
    || (s.consumer.DummyOwed? && s.consumer.prevHead == prev && node == s.dummy)
  }

  ghost predicate LinkOk(s: State, c: seq<Node>, i: nat)
    requires i + 1 < |c| && c[i] in s.link
  {
    || s.link[c[i]] == Some(c[i + 1])
    || (s.link[c[i]] == None && Owed(s, c[i + 1], c[i]))
  }

  /** `c` lists the nodes from _tail to _head, each at most once. */
  ghost predicate Chain(s: State, c: seq<Node>) {
    && |c| > 0 && c[0] == s.tail && c[|c| - 1] == s.head
    && Distinct(c)
    && (forall i :: 0 <= i < |c| ==> c[i] in s.link && c[i] !in s.owned)
    && s.link[c[|c| - 1]] == None
    && (forall i :: 0 <= i < |c| - 1 ==> LinkOk(s, c, i))
  }

  /** The chain has prev directly before node and the link between them is not stored. */
  ghost predicate Gap(s: State, c: seq<Node>, node: Node, prev: Node) {
    exists i :: 0 <= i < |c| - 1 && c[i] == prev && c[i + 1] == node
                && prev in s.link && s.link[prev] == None
  }

  ghost predicate ProducerOk(s: State, c: seq<Node>, p: nat)
    requires p in s.producers
  {
    var q := s.producers[p];
    && q.item in s.link && q.item !in s.owned && q.item != s.dummy
    && (q.MustLink? ==> Gap(s, c, q.item, q.prevHead))
    && (!q.MustLink? ==> q.item !in c)
    && (q.Cleared? ==> s.link[q.item] == None)
  }

  ghost predicate ProducersOk(s: State, c: seq<Node>) {
    && (forall p :: p in s.producers ==> ProducerOk(s, c, p))
    && (forall p, q :: p in s.producers && q in s.producers && p != q ==>
          s.producers[p].item != s.producers[q].item)
  }

  ghost predicate ConsumerOk(s: State, c: seq<Node>) {
    && s.dummy in s.link && s.dummy !in s.owned
    && match s.consumer
       case Ready => true
       case GotTail(t) => t == s.tail
       case AtDummy(n) => s.tail == s.dummy && s.link[s.dummy] == Some(n)
       case Skipped(t) => t == s.tail && t != s.dummy
       case Checked(t, next) =>
         && t == s.tail && t != s.dummy
         && (next.Some? ==> t in s.link && s.link[t] == next)
       case Lone(t) => t == s.tail && t != s.dummy && s.dummy !in c
       case DummyCleared(t) =>
         t == s.tail && t != s.dummy && s.dummy !in c && s.link[s.dummy] == None
       case DummyOwed(t, prev) => t == s.tail && t != s.dummy && Gap(s, c, s.dummy, prev)
       case DummyLinked(t) => t == s.tail && t != s.dummy
  }

  /** In a call during which no producer owed a link, what the consumer saw is current. */
  ghost predicate QuietOk(s: State, c: seq<Node>) {
    s.quiet && !s.consumer.Ready? ==>
      && (forall p :: p in s.producers ==> !s.producers[p].MustLink?)
      && (s.consumer.Checked? && s.consumer.next == None ==> |c| == 1)
      && (s.consumer.Lone? || s.consumer.DummyCleared? ==> |c| == 1)
      && (s.consumer.DummyOwed? || s.consumer.DummyLinked? ==> |c| == 2)
  }

  /** Every live node is in one place: the dummy, a client, the chain or an Enqueue in progress. */
  ghost predicate Accounted(s: State, c: seq<Node>) {
    && s.owned <= s.link.Keys
    && forall n :: n in s.link ==> n == s.dummy || n in s.owned || n in c || Held(s, n)
  }

  ghost predicate Held(s: State, n: Node) {
    exists p :: p in s.producers && s.producers[p].item == n
  }

  /** The items of the chain: its nodes without the dummy. */
  function Items(c: seq<Node>, dummy: Node): seq<Node> {
    if c == [] then []
    else (if c[0] == dummy then [] else [c[0]]) + Items(c[1..], dummy)
  }

  ghost predicate Inv(s: State, c: seq<Node>) {
    && Chain(s, c)
    && ProducersOk(s, c)
    && ConsumerOk(s, c)
    && QuietOk(s, c)
    && Accounted(s, c)
    && s.enqueued == s.dequeued + Items(c, s.dummy)
  }

  // ----- facts about chains --------------------------------------------------

  lemma {:induction false} ItemsSnoc(c: seq<Node>, n: Node, dummy: Node)
    ensures Items(c + [n], dummy) == Items(c, dummy) + (if n == dummy then [] else [n])
  {
    if c == [] {
      assert ([] + [n])[1..] == [];
    } else {
      assert (c + [n])[1..] == c[1..] + [n];
      ItemsSnoc(c[1..], n, dummy);
    }
  }

  lemma StillOwed(s: State, t: State, node: Node, prev: Node)
    requires Owed(s, node, prev) && s.dummy == t.dummy
    requires forall q :: q in s.producers && s.producers[q] == MustLink(node, prev) ==>
               q in t.producers && t.producers[q] == s.producers[q]
    requires s.consumer.DummyOwed? && s.consumer.prevHead == prev && node == s.dummy ==> t.consumer == s.consumer
    ensures Owed(t, node, prev)
  {
    if q :| q in s.producers && s.producers[q] == MustLink(node, prev) {
      assert t.producers[q] == MustLink(node, prev);
    }
  }

  lemma StillHeld(s: State, t: State, n: Node)
    requires Held(s, n)
    requires forall q :: q in s.producers && s.producers[q].item == n ==>
               q in t.producers && t.producers[q].item == n
    ensures Held(t, n)
  {
    var q :| q in s.producers && s.producers[q].item == n;
    assert t.producers[q].item == n;
  }

  /** Chain, seen from a step that changes no link of the chain and forgets no debt. */
  lemma ChainFrame(s: State, t: State, c: seq<Node>)
    requires Chain(s, c) && s.dummy == t.dummy && s.head == t.head && s.tail == t.tail
    requires forall i :: 0 <= i < |c| ==> c[i] in t.link && c[i] !in t.owned && t.link[c[i]] == s.link[c[i]]
    requires forall q :: q in s.producers && s.producers[q].MustLink? ==>
               q in t.producers && t.producers[q] == s.producers[q]
    requires s.consumer.DummyOwed? ==> t.consumer == s.consumer
    ensures Chain(t, c)
  {
    forall i | 0 <= i < |c| - 1 ensures LinkOk(t, c, i) {
      assert LinkOk(s, c, i);
      if s.link[c[i]] == None { StillOwed(s, t, c[i + 1], c[i]); }
    }
  }

  lemma AccountedFrame(s: State, t: State, c: seq<Node>)
    requires Accounted(s, c) && s.dummy == t.dummy && t.owned <= t.link.Keys
    requires forall n :: n in t.link ==> n in s.link || n in t.owned
    requires forall n :: n in s.owned && n in t.link ==> n in t.owned || Held(t, n)
    requires forall q :: q in s.producers ==>
               (q in t.producers && t.producers[q].item == s.producers[q].item) || s.producers[q].item in c
    ensures Accounted(t, c)
  {
    forall n | n in t.link && n != t.dummy && n !in t.owned && n !in c ensures Held(t, n) {
      if n !in s.owned { StillHeld(s, t, n); }
    }
  }

  /** A gap survives a step that leaves its link null, also when the chain grows or loses another first node. */
  lemma GapFrame(s: State, t: State, c: seq<Node>, d: seq<Node>, node: Node, prev: Node)
    requires Gap(s, c, node, prev)
    requires prev in t.link && t.link[prev] == None
    requires c <= d || (|c| > 0 && d == c[1..] && c[0] != prev)
    ensures Gap(t, d, node, prev)
  {
    var i :| 0 <= i < |c| - 1 && c[i] == prev && c[i + 1] == node;
    if c <= d {
      assert d[i] == prev && d[i + 1] == node;
    } else {
      assert d[i - 1] == prev && d[i] == node;
    }
  }

  /** A producer that did not move stays good when its own nodes' links were left alone. */
  lemma ProducerFrame(s: State, t: State, c: seq<Node>, d: seq<Node>, q: nat)
    requires q in s.producers && q in t.producers && s.producers[q] == t.producers[q]
    requires ProducerOk(s, c, q) && s.dummy == t.dummy
    requires c <= d || (|c| > 0 && d == c[1..])
    requires var x := s.producers[q];
             && x.item in t.link && x.item !in t.owned
             && (x.Cleared? ==> t.link[x.item] == None)
             && (!x.MustLink? ==> x.item !in d)
             && (x.MustLink? ==> x.prevHead in t.link && t.link[x.prevHead] == None)
             && (x.MustLink? && !(c <= d) ==> c[0] != x.prevHead)
    ensures ProducerOk(t, d, q)
  {
    var x := s.producers[q];
    if x.MustLink? { GapFrame(s, t, c, d, x.item, x.prevHead); }
  }

  /** Distinct gaps have distinct nodes before and after them. */
  lemma GapUnique(s: State, c: seq<Node>, n1: Node, p1: Node, n2: Node, p2: Node)
    requires Distinct(c) && Gap(s, c, n1, p1) && Gap(s, c, n2, p2)
    ensures n1 == n2 <==> p1 == p2
    ensures p1 in c && p1 in s.link && s.link[p1] == None
  {
    var i :| 0 <= i < |c| - 1 && c[i] == p1 && c[i + 1] == n1;
    var j :| 0 <= j < |c| - 1 && c[j] == p2 && c[j + 1] == n2;
  }

  // ----- the clients' steps and a producer's first two ------------------------

  lemma ClientKeeps(s: State, c: seq<Node>, step: Step)
    requires Inv(s, c) && Enabled(s, step) && !Faults(s, step)
    requires step.Create? || step.Free?
    ensures Inv(Apply(s, step), c)
  {
    var t := Apply(s, step);
    ChainFrame(s, t, c);
    AccountedFrame(s, t, c);
    forall q | q in t.producers ensures ProducerOk(t, c, q) {
      assert ProducerOk(s, c, q);
    }
  }

  lemma BeginKeeps(s: State, c: seq<Node>, p: nat, item: Node)
    requires Inv(s, c) && Enabled(s, Begin(p, item))
    ensures Inv(Apply(s, Begin(p, item)), c)
  {
    var t := Apply(s, Begin(p, item));
    ChainFrame(s, t, c);
    assert Held(t, item) by { assert t.producers[p].item == item; }
    AccountedFrame(s, t, c);
    forall q | q in s.producers ensures ProducerOk(t, c, q) && s.producers[q].item != item {
      assert ProducerOk(s, c, q);
      if s.producers[q].MustLink? {
        GapUnique(s, c, s.producers[q].item, s.producers[q].prevHead, s.producers[q].item, s.producers[q].prevHead);
      }
      ProducerFrame(s, t, c, c, q);
    }
  }

  lemma ClearProducers(s: State, c: seq<Node>, p: nat)
    requires Inv(s, c) && Enabled(s, Clear(p)) && !Faults(s, Clear(p))
    ensures ProducersOk(Apply(s, Clear(p)), c)
  {
    var t := Apply(s, Clear(p));
    assert ProducerOk(s, c, p);
    forall q | q in t.producers ensures ProducerOk(t, c, q) {
      assert ProducerOk(s, c, q);
      if q != p {
        if s.producers[q].MustLink? {
          GapUnique(s, c, s.producers[q].item, s.producers[q].prevHead, s.producers[q].item, s.producers[q].prevHead);
        }
        ProducerFrame(s, t, c, c, q);
      }
    }
  }

  lemma ClearConsumer(s: State, c: seq<Node>, p: nat)
    requires Inv(s, c) && Enabled(s, Clear(p)) && !Faults(s, Clear(p))
    ensures ConsumerOk(Apply(s, Clear(p)), c)
  {
    var t := Apply(s, Clear(p));
    assert ProducerOk(s, c, p);
    if s.consumer.DummyOwed? { GapFrame(s, t, c, c, s.dummy, s.consumer.prevHead); }
  }

  lemma ClearKeeps(s: State, c: seq<Node>, p: nat)
    requires Inv(s, c) && Enabled(s, Clear(p)) && !Faults(s, Clear(p))
    ensures Inv(Apply(s, Clear(p)), c)
  {
    var t := Apply(s, Clear(p));
    assert ProducerOk(s, c, p);
    ChainFrame(s, t, c);
    AccountedFrame(s, t, c);
    ClearProducers(s, c, p);
    ClearConsumer(s, c, p);
  }

  // ----- a producer's exchange and link ---------------------------------------

  lemma ExchangeChain(s: State, c: seq<Node>, p: nat)
    requires Inv(s, c) && Enabled(s, Exchange(p))
    ensures Chain(Apply(s, Exchange(p)), c + [s.producers[p].item])
  {
    var t := Apply(s, Exchange(p));
    var item := s.producers[p].item;
    var d := c + [item];
    assert ProducerOk(s, c, p);
    forall i | 0 <= i < |d| - 1 ensures LinkOk(t, d, i) {
      if i < |c| - 1 {
        assert LinkOk(s, c, i);
        if s.link[c[i]] == None { StillOwed(s, t, c[i + 1], c[i]); }
      } else {
        assert t.producers[p] == MustLink(d[i + 1], d[i]);
      }
    }
  }

  lemma ExchangeProducers(s: State, c: seq<Node>, p: nat)
    requires Inv(s, c) && Enabled(s, Exchange(p))
    ensures ProducersOk(Apply(s, Exchange(p)), c + [s.producers[p].item])
  {
    var t := Apply(s, Exchange(p));
    var d := c + [s.producers[p].item];
    forall q | q in t.producers ensures ProducerOk(t, d, q) {
      assert ProducerOk(s, c, q);
      if q == p {
        assert d[|c| - 1] == s.head && d[|c|] == s.producers[p].item;
        assert Gap(t, d, s.producers[p].item, s.head);
      } else {
        if s.producers[q].MustLink? {
          GapUnique(s, c, s.producers[q].item, s.producers[q].prevHead, s.producers[q].item, s.producers[q].prevHead);
        }
        ProducerFrame(s, t, c, d, q);
      }
    }
  }

  lemma ExchangeConsumer(s: State, c: seq<Node>, p: nat)
    requires Inv(s, c) && Enabled(s, Exchange(p))
    ensures ConsumerOk(Apply(s, Exchange(p)), c + [s.producers[p].item])
  {
    var t := Apply(s, Exchange(p));
    assert ProducerOk(s, c, p);
    if s.consumer.DummyOwed? {
      GapFrame(s, t, c, c + [s.producers[p].item], s.dummy, s.consumer.prevHead);
    }
  }

  lemma ExchangeKeeps(s: State, c: seq<Node>, p: nat)
    requires Inv(s, c) && Enabled(s, Exchange(p))
    ensures Inv(Apply(s, Exchange(p)), c + [s.producers[p].item])
  {
    var t := Apply(s, Exchange(p));
    var item := s.producers[p].item;
    assert ProducerOk(s, c, p);
    ExchangeChain(s, c, p);
    ExchangeProducers(s, c, p);
    ExchangeConsumer(s, c, p);
    ItemsSnoc(c, item, s.dummy);
    assert s.dequeued + (Items(c, s.dummy) + [item]) == s.dequeued + Items(c, s.dummy) + [item];
    AccountedFrame(s, t, c);
    assert forall n :: n in c ==> n in c + [item];
  }

  lemma LinkChain(s: State, c: seq<Node>, p: nat)
    requires Inv(s, c) && Enabled(s, Link(p)) && !Faults(s, Link(p))
    ensures Chain(Apply(s, Link(p)), c)
  {
    var t := Apply(s, Link(p));
    var MustLink(item, prev) := s.producers[p];
    assert ProducerOk(s, c, p);
    var k :| 0 <= k < |c| - 1 && c[k] == prev && c[k + 1] == item;
    forall i | 0 <= i < |c| - 1 ensures LinkOk(t, c, i) {
      assert LinkOk(s, c, i);
      if i != k && s.link[c[i]] == None { StillOwed(s, t, c[i + 1], c[i]); }
    }
  }

  lemma LinkProducers(s: State, c: seq<Node>, p: nat)
    requires Inv(s, c) && Enabled(s, Link(p)) && !Faults(s, Link(p))
    ensures ProducersOk(Apply(s, Link(p)), c)
  {
    var t := Apply(s, Link(p));
    var x := s.producers[p];
    assert ProducerOk(s, c, p);
    forall q | q in t.producers ensures ProducerOk(t, c, q) {
      var y := s.producers[q];
      assert ProducerOk(s, c, q);
      assert y.item != x.item;
      GapUnique(s, c, x.item, x.prevHead, x.item, x.prevHead);
      if y.MustLink? { GapUnique(s, c, y.item, y.prevHead, x.item, x.prevHead); }
      ProducerFrame(s, t, c, c, q);
    }
  }

  lemma LinkConsumer(s: State, c: seq<Node>, p: nat)
    requires Inv(s, c) && Enabled(s, Link(p)) && !Faults(s, Link(p))
    ensures ConsumerOk(Apply(s, Link(p)), c)
  {
    var t := Apply(s, Link(p));
    var x := s.producers[p];
    assert ProducerOk(s, c, p);
    GapUnique(s, c, x.item, x.prevHead, x.item, x.prevHead);
    if s.consumer.DummyOwed? {
      GapUnique(s, c, s.dummy, s.consumer.prevHead, x.item, x.prevHead);
      GapFrame(s, t, c, c, s.dummy, s.consumer.prevHead);
    }
  }

  lemma LinkKeeps(s: State, c: seq<Node>, p: nat)
    requires Inv(s, c) && Enabled(s, Link(p)) && !Faults(s, Link(p))
    ensures Inv(Apply(s, Link(p)), c)
  {
    var t := Apply(s, Link(p));
    assert ProducerOk(s, c, p);
    assert s.producers[p].item in c;
    LinkChain(s, c, p);
    LinkProducers(s, c, p);
    LinkConsumer(s, c, p);
    AccountedFrame(s, t, c);
  }

  // ----- the consumer's steps --------------------------------------------------

  /** With nobody owing a link, every link of the chain is in place. */
  lemma NothingOwed(s: State, c: seq<Node>, i: nat)
    requires Chain(s, c) && i + 1 < |c| && !s.consumer.DummyOwed?
    requires forall p :: p in s.producers ==> !s.producers[p].MustLink?
    ensures s.link[c[i]] == Some(c[i + 1])
  {
    assert LinkOk(s, c, i);
  }

  lemma LoadQuiet(s: State, c: seq<Node>, step: Step)
    requires Inv(s, c) && Enabled(s, step) && !Faults(s, step)
    requires step.LoadTail? || step.LoadNext? || step.ReloadNext? || step.LoadHead? || step.LoadAgain?
    ensures QuietOk(Apply(s, step), c)
    ensures step.LoadAgain? && s.quiet ==> Apply(s, step).consumer.Checked?
  {
    if s.quiet && !s.consumer.Ready? && |c| > 1 { NothingOwed(s, c, 0); }
  }

  lemma LoadKeeps(s: State, c: seq<Node>, step: Step)
    requires Inv(s, c) && Enabled(s, step) && !Faults(s, step)
    requires step.LoadTail? || step.LoadNext? || step.ReloadNext? || step.LoadHead? || step.LoadAgain?
    ensures Inv(Apply(s, step), c)
  {
    var t := Apply(s, step);
    ChainFrame(s, t, c);
    LoadQuiet(s, c, step);
    AccountedFrame(s, t, c);
    if step.LoadHead? && t.consumer.Lone? {
      LoneChain(s, c);
    }
    forall q | q in t.producers ensures ProducerOk(t, c, q) {
      assert ProducerOk(s, c, q);
    }
  }

  /** A chain whose tail is its head has one node. */
  lemma LoneChain(s: State, c: seq<Node>)
    requires Chain(s, c) && s.tail == s.head
    ensures c == [s.tail]
  {
  }

  /** The consumer drops the first node: its successor exists and is linked. */
  lemma DropChain(s: State, c: seq<Node>, step: Step)
    requires Inv(s, c) && Enabled(s, step) && (step.SkipDummy? || step.TakeItem?)
    ensures |c| > 1 && s.link[c[0]] == Some(c[1])
    ensures Chain(Apply(s, step), c[1..])
  {
    var t := Apply(s, step);
    var d := c[1..];
    assert c[0] != c[|c| - 1];
    assert LinkOk(s, c, 0);
    forall i | 0 <= i < |d| - 1 ensures LinkOk(t, d, i) {
      assert LinkOk(s, c, i + 1);
      if s.link[d[i]] == None { StillOwed(s, t, d[i + 1], d[i]); }
    }
  }

  lemma DropProducers(s: State, c: seq<Node>, step: Step)
    requires Inv(s, c) && Enabled(s, step) && (step.SkipDummy? || step.TakeItem?)
    requires |c| > 1 && s.link[c[0]] == Some(c[1])
    ensures ProducersOk(Apply(s, step), c[1..])
    ensures forall q :: q in s.producers ==> s.producers[q].item != c[0]
  {
    var t := Apply(s, step);
    forall q | q in t.producers ensures ProducerOk(t, c[1..], q) && s.producers[q].item != c[0] {
      assert ProducerOk(s, c, q);
      var x := s.producers[q];
      if x.MustLink? {
        var i :| 0 <= i < |c| - 1 && c[i] == x.prevHead && c[i + 1] == x.item && s.link[x.prevHead] == None;
        assert c[i] != c[0];
        assert c[i + 1] != c[0];
      }
      ProducerFrame(s, t, c, c[1..], q);
    }
  }

  lemma SkipDummyKeeps(s: State, c: seq<Node>)
    requires Inv(s, c) && Enabled(s, SkipDummy) && |c| > 0
    ensures Inv(Apply(s, SkipDummy), c[1..])
  {
    var t := Apply(s, SkipDummy);
    DropChain(s, c, SkipDummy);
    DropProducers(s, c, SkipDummy);
    assert Items(c, s.dummy) == Items(c[1..], s.dummy);
    forall n | n in t.link && n != t.dummy && n !in t.owned && n !in c[1..] ensures Held(t, n) {
      assert n !in c;
      StillHeld(s, t, n);
    }
  }

  lemma TakeItemKeeps(s: State, c: seq<Node>)
    requires Inv(s, c) && Enabled(s, TakeItem) && |c| > 0
    ensures Inv(Apply(s, TakeItem), c[1..])
  {
    var t := Apply(s, TakeItem);
    DropChain(s, c, TakeItem);
    DropProducers(s, c, TakeItem);
    assert Items(c, s.dummy) == [c[0]] + Items(c[1..], s.dummy);
    assert s.dequeued + ([c[0]] + Items(c[1..], s.dummy)) == t.dequeued + Items(c[1..], s.dummy);
    forall n | n in t.link && n != t.dummy && n !in t.owned && n !in c[1..] ensures Held(t, n) {
      assert n !in c;
      StillHeld(s, t, n);
    }
  }

  lemma ClearDummyKeeps(s: State, c: seq<Node>)
    requires Inv(s, c) && Enabled(s, ClearDummy) && !Faults(s, ClearDummy)
    ensures Inv(Apply(s, ClearDummy), c)
  {
    var t := Apply(s, ClearDummy);
    ChainFrame(s, t, c);
    AccountedFrame(s, t, c);
    forall q | q in t.producers ensures ProducerOk(t, c, q) {
      assert ProducerOk(s, c, q);
      if s.producers[q].MustLink? {
        GapUnique(s, c, s.producers[q].item, s.producers[q].prevHead, s.producers[q].item, s.producers[q].prevHead);
      }
      ProducerFrame(s, t, c, c, q);
    }
  }

  lemma ExchangeDummyChain(s: State, c: seq<Node>)
    requires Inv(s, c) && Enabled(s, ExchangeDummy)
    ensures Chain(Apply(s, ExchangeDummy), c + [s.dummy])
  {
    var t := Apply(s, ExchangeDummy);
    var d := c + [s.dummy];
    forall i | 0 <= i < |d| - 1 ensures LinkOk(t, d, i) {
      if i < |c| - 1 {
        assert LinkOk(s, c, i);
        if s.link[c[i]] == None { StillOwed(s, t, c[i + 1], c[i]); }
      }
    }
  }

  lemma ExchangeDummyKeeps(s: State, c: seq<Node>)
    requires Inv(s, c) && Enabled(s, ExchangeDummy)
    ensures Inv(Apply(s, ExchangeDummy), c + [s.dummy])
  {
    var t := Apply(s, ExchangeDummy);
    var d := c + [s.dummy];
    ExchangeDummyChain(s, c);
    ItemsSnoc(c, s.dummy, s.dummy);
    AccountedFrame(s, t, c);
    assert forall n :: n in c ==> n in d;
    assert d[|c| - 1] == s.head && d[|c|] == s.dummy;
    assert Gap(t, d, s.dummy, s.head);
    forall q | q in t.producers ensures ProducerOk(t, d, q) {
      assert ProducerOk(s, c, q);
      ProducerFrame(s, t, c, d, q);
    }
  }

  lemma LinkDummyChain(s: State, c: seq<Node>)
    requires Inv(s, c) && Enabled(s, LinkDummy) && !Faults(s, LinkDummy)
    ensures Chain(Apply(s, LinkDummy), c)
  {
    var t := Apply(s, LinkDummy);
    var k :| 0 <= k < |c| - 1 && c[k] == s.consumer.prevHead && c[k + 1] == s.dummy;
    forall i | 0 <= i < |c| - 1 ensures LinkOk(t, c, i) {
      assert LinkOk(s, c, i);
      if i != k && s.link[c[i]] == None { StillOwed(s, t, c[i + 1], c[i]); }
    }
  }

  lemma LinkDummyKeeps(s: State, c: seq<Node>)
    requires Inv(s, c) && Enabled(s, LinkDummy) && !Faults(s, LinkDummy)
    ensures Inv(Apply(s, LinkDummy), c)
  {
    var t := Apply(s, LinkDummy);
    var prev := s.consumer.prevHead;
    LinkDummyChain(s, c);
    AccountedFrame(s, t, c);
    GapUnique(s, c, s.dummy, prev, s.dummy, prev);
    forall q | q in t.producers ensures ProducerOk(t, c, q) {
      var x := s.producers[q];
      assert ProducerOk(s, c, q);
      if x.MustLink? { GapUnique(s, c, x.item, x.prevHead, s.dummy, prev); }
      ProducerFrame(s, t, c, c, q);
    }
  }

  // ----- every step, every run -------------------------------------------------

  lemma NoFault(s: State, c: seq<Node>, step: Step)
    requires Inv(s, c) && Enabled(s, step)
    ensures !Faults(s, step)
  {
    match step
    case Clear(p) => assert ProducerOk(s, c, p);
    case Link(p) =>
      assert ProducerOk(s, c, p);
      GapUnique(s, c, s.producers[p].item, s.producers[p].prevHead, s.producers[p].item, s.producers[p].prevHead);
    case LinkDummy => GapUnique(s, c, s.dummy, s.consumer.prevHead, s.dummy, s.consumer.prevHead);
    case _ =>
  }

  /** The chain after a step. */
  function NextChain(s: State, c: seq<Node>, step: Step): seq<Node>
    requires Enabled(s, step)
  {
    match step
    case Exchange(p) => c + [s.producers[p].item]
    case ExchangeDummy => c + [s.dummy]
    case SkipDummy => if |c| > 0 then c[1..] else c
    case TakeItem => if |c| > 0 then c[1..] else c
    case _ => c
  }

  /** Every enabled step of a good state is safe and leads to a good state. */
  lemma StepKeepsInv(s: State, c: seq<Node>, step: Step)
    requires Inv(s, c) && Enabled(s, step)
    ensures !Faults(s, step)
    ensures Inv(Apply(s, step), NextChain(s, c, step))
  {
    NoFault(s, c, step);
    match step
    case Create(_) => ClientKeeps(s, c, step);
    case Free(_) => ClientKeeps(s, c, step);
    case Begin(p, item) => BeginKeeps(s, c, p, item);
    case Clear(p) => ClearKeeps(s, c, p);
    case Exchange(p) => ExchangeKeeps(s, c, p);
    case Link(p) => LinkKeeps(s, c, p);
    case SkipDummy => SkipDummyKeeps(s, c);
    case TakeItem => TakeItemKeeps(s, c);
    case ClearDummy => ClearDummyKeeps(s, c);
    case ExchangeDummy => ExchangeDummyKeeps(s, c);
    case LinkDummy => LinkDummyKeeps(s, c);
    case _ => LoadKeeps(s, c, step);
  }

  lemma {:induction false} RunKeepsInv(s: State, c: seq<Node>, steps: seq<Step>, t: State) returns (d: seq<Node>)
    requires Inv(s, c) && Runs(s, steps, t)
    ensures Inv(t, d)
    decreases |steps|
  {
    if steps == [] {
      d := c;
    } else {
      StepKeepsInv(s, c, steps[0]);
      d := RunKeepsInv(Apply(s, steps[0]), NextChain(s, c, steps[0]), steps[1..], t);
    }
  }

  lemma ReachableInv(s: State, steps: seq<Step>, t: State) returns (c: seq<Node>)
    requires Init(s) && Runs(s, steps, t)
    ensures Inv(t, c)
  {
    assert Items([s.dummy], s.dummy) == [] by { assert [s.dummy][1..] == []; }
    assert Inv(s, [s.dummy]);
    c := RunKeepsInv(s, [s.dummy], steps, t);
  }

  // ----- the theorems ----------------------------------------------------------

  /**
    In every run the chain holds each node, so also the dummy, at most once, and
    the items handed out followed by the items still in the chain are the
    producers' items in the order of their exchanges of _head.
   */
  lemma Fifo(s: State, steps: seq<Step>, t: State) returns (c: seq<Node>)
    requires Init(s) && Runs(s, steps, t)
    ensures Chain(t, c)
    ensures t.enqueued == t.dequeued + Items(c, t.dummy)
  {
    c := ReachableInv(s, steps, t);
  }

  /** No step of any run touches the link of a freed item or of one a client owns. */
  lemma OwnershipSafe(s: State, steps: seq<Step>, t: State, step: Step)
    requires Init(s) && Runs(s, steps, t) && Enabled(t, step)
    ensures !Faults(t, step)
  {
    var c := ReachableInv(s, steps, t);
    NoFault(t, c, step);
  }

  /** The step ends a call of Dequeue with false, or with true. */
  predicate ReturnsFalse(s: State, step: Step)
    requires Enabled(s, step) && !Faults(s, step)
  {
    (step.LoadNext? || step.LoadHead? || step.LoadAgain?) && Apply(s, step).consumer.Ready?
  }

  /**
    A call of Dequeue during which no producer was between exchange and link
    returns false only if the queue is empty, and true only by handing out the
    oldest item: it succeeds exactly when an item is present.
   */
  lemma QuietDequeueIsExact(s: State, steps: seq<Step>, t: State, step: Step)
    requires Init(s) && Runs(s, steps, t)
    requires Enabled(t, step) && !Faults(t, step) && t.quiet
    ensures ReturnsFalse(t, step) ==> t.enqueued == t.dequeued
    ensures step.TakeItem? ==> t.dequeued < t.enqueued && t.consumer.tail == t.enqueued[|t.dequeued|]
  {
    var c := ReachableInv(s, steps, t);
    if ReturnsFalse(t, step) {
      QuietFalse(t, c, step);
    }
    if step.TakeItem? {
      DropChain(t, c, step);
      assert Items(c, t.dummy) == [c[0]] + Items(c[1..], t.dummy);
    }
  }

  lemma QuietFalse(t: State, c: seq<Node>, step: Step)
    requires Inv(t, c) && Enabled(t, step) && !Faults(t, step) && t.quiet
    requires ReturnsFalse(t, step)
    ensures t.enqueued == t.dequeued
  {
    match step
    case LoadNext =>
      if |c| > 1 { NothingOwed(t, c, 0); }
      assert c == [t.dummy];
      assert c[1..] == [];
      assert Items(c, t.dummy) == [];
    case LoadAgain => LoadQuiet(t, c, step);
    case _ =>
  }
}
