/**
  The multi-producer single-consumer queue of src/util/mpsc_queue.h as a transition system over an
  explicit heap. A push is three steps (allocate, exchange `head_`, link), a pop is five. The allocator
  may hand out any address not in use, including ones freed before. An access to a dead address, or
  freeing one, sets `fault`.

  `order` (every node ever exchanged in, the first sentinel first), `base` (how many sentinels have been
  retired), `role` (who is responsible for a live node) and the index `at` beside a producer's pointers
  are history: no step reads them to decide anything.
*/
module MpscQueue {
  import opened Words

  type Addr = nat

  datatype Node<T> = Node(next: Option<Addr>, value: Option<T>)

  /** Inside push(value): the node is allocated, then exchanged in but not linked. */
  datatype Producer<T> = Idle | Holding(node: Addr, value: T) | Linking(node: Addr, prev: Addr, at: nat)

  datatype Consumer<T> =
    | Ready
    | SawNext(next: Addr)
    | Took(next: Addr, value: T)
    | Cleared(next: Addr, value: T)
    | Swung(garbage: Addr, value: T)

  datatype Entry<T> = Entry(addr: Addr, owner: nat, value: Option<T>)

  datatype Role = Listed(i: nat) | Held(p: nat) | Garbage

  datatype Queue<T> = Queue(
    head: Addr, tail: Addr, nodes: map<Addr, Node<T>>,
    producers: seq<Producer<T>>, consumer: Consumer<T>,
    popped: seq<T>, fault: bool,
    order: seq<Entry<T>>, base: nat, role: map<Addr, Role>)

  datatype Step<T> =
    | Allocate(p: nat, addr: Addr, value: T)
    | Exchange(p: nat)
    | Link(p: nat)
    | LoadNext
    | TakeValue
    | ClearValue
    | SwingTail
    | Delete

  predicate Enabled<T>(q: Queue<T>, step: Step<T>) {
    match step
    case Allocate(p, addr, _) => p < |q.producers| && q.producers[p].Idle? && addr !in q.nodes
    case Exchange(p) => p < |q.producers| && q.producers[p].Holding?
    case Link(p) => p < |q.producers| && q.producers[p].Linking?
    case LoadNext => q.consumer.Ready?
    case TakeValue => q.consumer.SawNext?
    case ClearValue => q.consumer.Took?
    case SwingTail => q.consumer.Cleared?
    case Delete => q.consumer.Swung?
  }

  function Apply<T>(q: Queue<T>, step: Step<T>): (r: Queue<T>)
    requires Enabled(q, step)
  {
    match step
    case Allocate(p, addr, value) =>
      q.(nodes := q.nodes[addr := Node(None, Some(value))], producers := q.producers[p := Holding(addr, value)],
         role := q.role[addr := Held(p)])
    case Exchange(p) =>
      var n, value := q.producers[p].node, q.producers[p].value;
      q.(head := n, producers := q.producers[p := Linking(n, q.head, |q.order|)],
         order := q.order + [Entry(n, p, Some(value))],
         role := q.role[n := Listed(|q.order|)])
    case Link(p) =>
      var pr := q.producers[p];
      if pr.prev in q.nodes then
        q.(nodes := q.nodes[pr.prev := q.nodes[pr.prev].(next := Some(pr.node))], producers := q.producers[p := Idle])
      else q.(fault := true)
    case LoadNext =>
      if q.tail !in q.nodes then q.(fault := true)
      else if q.nodes[q.tail].next.None? then q
      else q.(consumer := SawNext(q.nodes[q.tail].next.value))
    case TakeValue =>
      var n := q.consumer.next;
      if n in q.nodes && q.nodes[n].value.Some? then q.(consumer := Took(n, q.nodes[n].value.value)) else q.(fault := true)
    case ClearValue =>
      var n := q.consumer.next;
      if n in q.nodes then
        q.(nodes := q.nodes[n := q.nodes[n].(value := None)], consumer := Cleared(n, q.consumer.value))
      else q.(fault := true)
    case SwingTail =>
      q.(tail := q.consumer.next, consumer := Swung(q.tail, q.consumer.value), base := q.base + 1,
         role := q.role[q.tail := Garbage])
    case Delete =>
      if q.consumer.garbage in q.nodes then
        q.(nodes := q.nodes - {q.consumer.garbage}, role := q.role - {q.consumer.garbage}, consumer := Ready, popped := q.popped + [q.consumer.value])
      else q.(fault := true)
  }

  /** A new queue: one sentinel node, n idle producers. */
  predicate Initial<T(==)>(q: Queue<T>) {
    q.nodes == map[q.head := Node(None, None)] && q.tail == q.head && !q.fault &&
    (forall p :: 0 <= p < |q.producers| ==> q.producers[p].Idle?) && q.consumer.Ready? &&
    q.popped == [] && q.order == [Entry(q.head, 0, None)] && q.base == 0 && q.role == map[q.head := Listed(0)]
  }

  // ---------------------------------------------------------------- the invariant

  /** The i-th node ever exchanged in is still in the list. */
  predicate InList<T>(q: Queue<T>, i: nat) {
    q.base <= i < |q.order|
  }

  /** The i-th entry is a live node of the list. */
  ghost predicate EntryOk<T>(q: Queue<T>, i: nat)
    requires i < |q.order|
  {
    q.order[i].addr in q.nodes && q.order[i].addr in q.role && q.role[q.order[i].addr] == Listed(i)
  }

  ghost predicate ListOk<T>(q: Queue<T>) {
    q.base < |q.order| && q.tail == q.order[q.base].addr && q.head == q.order[|q.order| - 1].addr &&
    (forall i: nat :: InList(q, i) ==> EntryOk(q, i))
  }

  /** Node i is linked from its predecessor, or its producer is still about to link it. */
  ghost predicate LinkOk<T>(q: Queue<T>, i: nat)
    requires q.base < i < |q.order|
  {
    var e, prev := q.order[i], q.order[i - 1].addr;
    EntryOk(q, i - 1) &&
    (q.nodes[prev].next == Some(e.addr) ||
     (q.nodes[prev].next == None && e.owner < |q.producers| && q.producers[e.owner] == Linking(e.addr, prev, i)))
  }

  ghost predicate ValueOk<T>(q: Queue<T>, i: nat)
    requires q.base < i < |q.order|
  {
    EntryOk(q, i) &&
    q.nodes[q.order[i].addr].value == (if q.consumer.Cleared? && i == q.base + 1 then None else q.order[i].value)
  }

  ghost predicate ProducerOk<T>(q: Queue<T>, p: nat)
    requires p < |q.producers|
  {
    match q.producers[p]
    case Idle => true
    case Holding(n, value) =>
      n in q.nodes && q.nodes[n].next == None && q.nodes[n].value == Some(value) && n in q.role && q.role[n] == Held(p)
    case Linking(n, prev, at) =>
      q.base < at < |q.order| && q.order[at].addr == n && q.order[at].owner == p &&
      q.order[at - 1].addr == prev && EntryOk(q, at - 1) && q.nodes[prev].next == None
  }

  ghost predicate ConsumerOk<T>(q: Queue<T>)
    requires q.base < |q.order|
  {
    match q.consumer
    case Ready => true
    case SawNext(next) => Linked(q, next)
    case Took(next, value) => Linked(q, next) && q.order[q.base + 1].value == Some(value)
    case Cleared(next, value) => Linked(q, next) && q.order[q.base + 1].value == Some(value)
    case Swung(garbage, value) =>
      0 < q.base && q.order[q.base].value == Some(value) && garbage in q.nodes &&
      garbage in q.role && q.role[garbage].Garbage?
  }

  ghost predicate Linked<T>(q: Queue<T>, next: Addr)
    requires q.base < |q.order|
  {
    q.base + 1 < |q.order| && next == q.order[q.base + 1].addr && q.tail in q.nodes && q.nodes[q.tail].next == Some(next)
  }

  /** Exactly one party is responsible for freeing the node. */
  ghost predicate Accounted<T>(q: Queue<T>, a: Addr) {
    a in q.role &&
    match q.role[a]
    case Listed(i) => InList(q, i) && q.order[i].addr == a
    case Held(p) => p < |q.producers| && q.producers[p].Holding? && q.producers[p].node == a
    case Garbage => q.consumer.Swung? && q.consumer.garbage == a
  }

  /** The values of the entries from 1 to n. */
  function Values<T>(order: seq<Entry<T>>, n: nat): (r: seq<T>)
    requires n < |order|
  {
    if n == 0 then []
    else Values(order, n - 1) + (if order[n].value.Some? then [order[n].value.value] else [])
  }

  function InHand<T>(c: Consumer<T>): (r: seq<T>) {
    if c.Swung? then [c.value] else []
  }

  ghost predicate Inv<T>(q: Queue<T>) {
    !q.fault && ListOk(q) && q.head in q.nodes && q.nodes[q.head].next == None &&
    (forall i: nat :: q.base < i < |q.order| ==> LinkOk(q, i)) &&
    (forall i: nat :: q.base < i < |q.order| ==> ValueOk(q, i)) &&
    (forall p: nat :: p < |q.producers| ==> ProducerOk(q, p)) &&
    ConsumerOk(q) &&
    (forall a :: a in q.nodes ==> Accounted(q, a)) &&
    q.popped + InHand(q.consumer) == Values(q.order, q.base) &&
    (forall i :: 0 < i < |q.order| ==> q.order[i].value.Some?)
  }
}
