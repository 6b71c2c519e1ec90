/** Safety, order and memory reclamation of the multi-producer queue, for all interleavings. */
module MpscQueueSafety {
  import opened Words
  import opened MpscQueue

  lemma {:induction false} ValuesFrame<T>(a: seq<Entry<T>>, b: seq<Entry<T>>, n: nat)
    requires n < |a| && n < |b| && forall i :: 0 <= i <= n ==> a[i] == b[i]
    ensures Values(a, n) == Values(b, n)
  {
    if n > 0 { ValuesFrame(a, b, n - 1); }
  }

  lemma AllocateStep<T>(q: Queue<T>, p: nat, addr: Addr, value: T)
    requires Inv(q) && Enabled(q, Allocate(p, addr, value))
    ensures Inv(Apply(q, Allocate(p, addr, value)))
  {
    var r := Apply(q, Allocate(p, addr, value));
    forall i: nat | InList(r, i)
      ensures EntryOk(r, i)
    {
      assert InList(q, i) && EntryOk(q, i);
    }
    forall i: nat | q.base < i < |q.order|
      ensures LinkOk(r, i) && ValueOk(r, i)
    {
      assert LinkOk(q, i) && ValueOk(q, i);
    }
    forall o: nat | o < |r.producers|
      ensures ProducerOk(r, o)
    {
      assert ProducerOk(q, o);
      if q.producers[o].Linking? { assert InList(r, q.producers[o].at - 1); }
    }
    forall a | a in r.nodes
      ensures Accounted(r, a)
    {
      if a != addr { assert Accounted(q, a); }
    }
  }

  lemma ExchangeKeepsList<T>(q: Queue<T>, p: nat)
    requires Inv(q) && Enabled(q, Exchange(p))
    ensures ListOk(Apply(q, Exchange(p)))
    ensures forall i: nat :: InList(Apply(q, Exchange(p)), i) ==> EntryOk(Apply(q, Exchange(p)), i)
  {
    var r := Apply(q, Exchange(p));
    assert ProducerOk(q, p);
    forall i: nat | InList(r, i)
      ensures EntryOk(r, i)
    {
      if i < |q.order| { assert InList(q, i) && EntryOk(q, i); }
    }
  }

  lemma ExchangeKeepsLinks<T>(q: Queue<T>, p: nat)
    requires Inv(q) && Enabled(q, Exchange(p))
    ensures var r := Apply(q, Exchange(p));
            forall i: nat :: r.base < i < |r.order| ==> LinkOk(r, i) && ValueOk(r, i)
  {
    var r := Apply(q, Exchange(p));
    ExchangeKeepsList(q, p);
    assert ProducerOk(q, p);
    forall i: nat | r.base < i < |r.order|
      ensures LinkOk(r, i) && ValueOk(r, i)
    {
      assert InList(r, i) && InList(r, i - 1);
      if i < |q.order| { assert LinkOk(q, i) && ValueOk(q, i); }
    }
  }

  lemma ExchangeKeepsOwners<T>(q: Queue<T>, p: nat)
    requires Inv(q) && Enabled(q, Exchange(p))
    ensures var r := Apply(q, Exchange(p));
            (forall o: nat :: o < |r.producers| ==> ProducerOk(r, o)) && (forall a :: a in r.nodes ==> Accounted(r, a))
  {
    var r := Apply(q, Exchange(p));
    ExchangeKeepsList(q, p);
    assert ProducerOk(q, p);
    assert InList(r, |q.order| - 1) && EntryOk(r, |q.order| - 1);
    forall o: nat | o < |r.producers|
      ensures ProducerOk(r, o)
    {
      assert ProducerOk(q, o);
      if o == p {
        assert r.producers[o] == Linking(q.producers[p].node, q.head, |q.order|);
      } else if q.producers[o].Linking? {
        assert InList(r, q.producers[o].at - 1) && EntryOk(r, q.producers[o].at - 1);
      }
    }
    forall a | a in r.nodes
      ensures Accounted(r, a)
    {
      assert Accounted(q, a);
    }
  }

  lemma ExchangeStep<T>(q: Queue<T>, p: nat)
    requires Inv(q) && Enabled(q, Exchange(p))
    ensures Inv(Apply(q, Exchange(p)))
  {
    assert ProducerOk(q, p);
    ExchangeKeepsList(q, p);
    ExchangeKeepsLinks(q, p);
    ExchangeKeepsOwners(q, p);
    ValuesFrame(q.order, Apply(q, Exchange(p)).order, q.base);
  }

  lemma LinkKeepsList<T>(q: Queue<T>, p: nat)
    requires Inv(q) && Enabled(q, Link(p))
    ensures var r := Apply(q, Link(p));
            !r.fault && ListOk(r) && r.head in r.nodes && r.nodes[r.head].next == None && r.order == q.order && r.base == q.base
  {
    var r := Apply(q, Link(p));
    assert ProducerOk(q, p);
    var at := q.producers[p].at;
    assert InList(q, |q.order| - 1) && EntryOk(q, |q.order| - 1) && EntryOk(q, at - 1);
    forall i: nat | InList(r, i)
      ensures EntryOk(r, i)
    {
      assert InList(q, i) && EntryOk(q, i);
    }
  }

  lemma LinkKeepsLinks<T>(q: Queue<T>, p: nat)
    requires Inv(q) && Enabled(q, Link(p))
    ensures var r := Apply(q, Link(p)); forall i: nat :: r.base < i < |r.order| ==> LinkOk(r, i) && ValueOk(r, i)
  {
    var r := Apply(q, Link(p));
    LinkKeepsList(q, p);
    assert ProducerOk(q, p);
    forall i: nat | r.base < i < |r.order|
      ensures LinkOk(r, i) && ValueOk(r, i)
    {
      assert InList(r, i) && InList(r, i - 1);
      assert LinkOk(q, i) && ValueOk(q, i);
    }
  }

  lemma LinkKeepsOwners<T>(q: Queue<T>, p: nat)
    requires Inv(q) && Enabled(q, Link(p))
    ensures var r := Apply(q, Link(p));
            (forall o: nat :: o < |r.producers| ==> ProducerOk(r, o)) && (forall a :: a in r.nodes ==> Accounted(r, a))
  {
    var r := Apply(q, Link(p));
    LinkKeepsList(q, p);
    assert ProducerOk(q, p);
    forall o: nat | o < |r.producers|
      ensures ProducerOk(r, o)
    {
      assert ProducerOk(q, o);
      if q.producers[o].Linking? { assert InList(r, q.producers[o].at - 1); }
    }
    forall a | a in r.nodes
      ensures Accounted(r, a)
    {
      assert Accounted(q, a);
    }
  }

  lemma LinkStep<T>(q: Queue<T>, p: nat)
    requires Inv(q) && Enabled(q, Link(p))
    ensures Inv(Apply(q, Link(p)))
  {
    LinkKeepsList(q, p);
    LinkKeepsLinks(q, p);
    LinkKeepsOwners(q, p);
    assert ProducerOk(q, p);
  }

  /** Steps of the consumer that change no link and no ownership. */
  lemma ConsumerKeepsRest<T>(q: Queue<T>, r: Queue<T>)
    requires Inv(q) && !q.consumer.Swung? && !r.consumer.Swung?
    requires r.order == q.order && r.base == q.base && r.role == q.role && r.producers == q.producers
    requires r.nodes.Keys == q.nodes.Keys && r.head == q.head && r.tail == q.tail
    requires forall a :: a in q.nodes ==> r.nodes[a].next == q.nodes[a].next
    requires forall a :: a in q.nodes && a in q.role && q.role[a].Held? ==> r.nodes[a] == q.nodes[a]
    ensures ListOk(r) && (forall i: nat :: r.base < i < |r.order| ==> LinkOk(r, i))
    ensures forall p: nat :: p < |r.producers| ==> ProducerOk(r, p)
    ensures forall a :: a in r.nodes ==> Accounted(r, a)
  {
    forall i: nat | InList(r, i)
      ensures EntryOk(r, i)
    {
      assert InList(q, i) && EntryOk(q, i);
    }
    forall i: nat | r.base < i < |r.order|
      ensures LinkOk(r, i)
    {
      assert LinkOk(q, i);
    }
    forall o: nat | o < |r.producers|
      ensures ProducerOk(r, o)
    {
      assert ProducerOk(q, o);
      if q.producers[o].Linking? { assert InList(r, q.producers[o].at - 1); }
    }
    forall a | a in r.nodes
      ensures Accounted(r, a)
    {
      assert Accounted(q, a);
    }
  }

  lemma ReadSteps<T>(q: Queue<T>, step: Step<T>)
    requires Inv(q) && Enabled(q, step) && (step.LoadNext? || step.TakeValue?)
    ensures Inv(Apply(q, step))
  {
    var r := Apply(q, step);
    assert InList(q, q.base) && EntryOk(q, q.base);
    if step.LoadNext? && q.nodes[q.tail].next.Some? {
      assert q.base + 1 < |q.order|;
      assert LinkOk(q, q.base + 1);
    } else if step.TakeValue? {
      assert ValueOk(q, q.base + 1);
    }
    ConsumerKeepsRest(q, r);
    forall i: nat | r.base < i < |r.order|
      ensures ValueOk(r, i)
    {
      assert ValueOk(q, i);
    }
  }

  lemma ClearKeepsValues<T>(q: Queue<T>)
    requires Inv(q) && Enabled(q, ClearValue)
    ensures var r := Apply(q, ClearValue); !r.fault && forall i: nat :: r.base < i < |r.order| ==> ValueOk(r, i)
  {
    var r := Apply(q, ClearValue);
    assert ValueOk(q, q.base + 1);
    forall i: nat | r.base < i < |r.order|
      ensures ValueOk(r, i)
    {
      assert ValueOk(q, i);
    }
  }

  lemma ClearValueStep<T>(q: Queue<T>)
    requires Inv(q) && Enabled(q, ClearValue)
    ensures Inv(Apply(q, ClearValue))
  {
    assert ValueOk(q, q.base + 1);
    ClearKeepsValues(q);
    ConsumerKeepsRest(q, Apply(q, ClearValue));
  }

  lemma SwingTailStep<T>(q: Queue<T>)
    requires Inv(q) && Enabled(q, SwingTail)
    ensures Inv(Apply(q, SwingTail))
  {
    var r := Apply(q, SwingTail);
    assert InList(q, q.base) && EntryOk(q, q.base);
    forall i: nat | InList(r, i)
      ensures EntryOk(r, i)
    {
      assert InList(q, i) && EntryOk(q, i);
    }
    forall i: nat | r.base < i < |r.order|
      ensures LinkOk(r, i) && ValueOk(r, i)
    {
      assert LinkOk(q, i) && ValueOk(q, i);
      assert InList(r, i - 1);
    }
    forall o: nat | o < |r.producers|
      ensures ProducerOk(r, o)
    {
      assert ProducerOk(q, o);
      if q.producers[o].Linking? { assert InList(r, q.producers[o].at - 1); }
    }
    forall a | a in r.nodes
      ensures Accounted(r, a)
    {
      assert Accounted(q, a);
    }
  }

  lemma DeleteStep<T>(q: Queue<T>)
    requires Inv(q) && Enabled(q, Delete)
    ensures Inv(Apply(q, Delete))
  {
    var r := Apply(q, Delete);
    assert InList(q, |q.order| - 1) && EntryOk(q, |q.order| - 1);
    forall i: nat | InList(r, i)
      ensures EntryOk(r, i)
    {
      assert InList(q, i) && EntryOk(q, i);
    }
    forall i: nat | r.base < i < |r.order|
      ensures LinkOk(r, i) && ValueOk(r, i)
    {
      assert LinkOk(q, i) && ValueOk(q, i);
    }
    forall o: nat | o < |r.producers|
      ensures ProducerOk(r, o)
    {
      assert ProducerOk(q, o);
      if q.producers[o].Linking? { assert InList(r, q.producers[o].at - 1); }
    }
    forall a | a in r.nodes
      ensures Accounted(r, a)
    {
      assert Accounted(q, a);
    }
  }

  /** Every step keeps the invariant: in particular no step touches or frees a dead node. */
  lemma StepKeepsInv<T>(q: Queue<T>, step: Step<T>)
    requires Inv(q) && Enabled(q, step)
    ensures Inv(Apply(q, step))
  {
    match step
    case Allocate(p, addr, value) => AllocateStep(q, p, addr, value);
    case Exchange(p) => ExchangeStep(q, p);
    case Link(p) => LinkStep(q, p);
    case LoadNext => ReadSteps(q, step);
    case TakeValue => ReadSteps(q, step);
    case ClearValue => ClearValueStep(q);
    case SwingTail => SwingTailStep(q);
    case Delete => DeleteStep(q);
  }

  // ---------------------------------------------------------------- whole runs

  predicate Runs<T(==)>(q: Queue<T>, steps: seq<Step<T>>)
    decreases |steps|
  {
    steps == [] || (Enabled(q, steps[0]) && Runs(Apply(q, steps[0]), steps[1..]))
  }

  function Final<T(==)>(q: Queue<T>, steps: seq<Step<T>>): (r: Queue<T>)
    requires Runs(q, steps)
    decreases |steps|
  {
    if steps == [] then q else Final(Apply(q, steps[0]), steps[1..])
  }

  lemma {:induction false} RunKeepsInv<T>(q: Queue<T>, steps: seq<Step<T>>)
    requires Inv(q) && Runs(q, steps)
    ensures Inv(Final(q, steps))
    decreases |steps|
  {
    if steps != [] {
      StepKeepsInv(q, steps[0]);
      RunKeepsInv(Apply(q, steps[0]), steps[1..]);
    }
  }

  lemma InitialInv<T>(q: Queue<T>)
    requires Initial(q)
    ensures Inv(q)
  {
    assert InList(q, 0);
  }

  lemma {:induction false} ValuesPrefix<T>(order: seq<Entry<T>>, m: nat, n: nat)
    requires m <= n < |order|
    ensures Values(order, m) <= Values(order, n)
    decreases n
  {
    if m < n { ValuesPrefix(order, m, n - 1); }
  }

  /** A run is its front and then its last step. */
  lemma {:induction false} RunFront<T>(q: Queue<T>, steps: seq<Step<T>>)
    requires Runs(q, steps) && steps != []
    ensures var n := |steps| - 1;
            Runs(q, steps[..n]) && Enabled(Final(q, steps[..n]), steps[n]) &&
            Final(q, steps) == Apply(Final(q, steps[..n]), steps[n])
    decreases |steps|
  {
    var n := |steps| - 1;
    if n > 0 {
      RunFront(Apply(q, steps[0]), steps[1..]);
      assert steps[..n][1..] == steps[1..][..n - 1];
    }
  }

  /** The argument of p's last push. */
  function LastArgument<T>(steps: seq<Step<T>>, p: nat): (v: Option<T>) {
    if steps == [] then None
    else
      var step := steps[|steps| - 1];
      if step.Allocate? && step.p == p then Some(step.value) else LastArgument(steps[..|steps| - 1], p)
  }

  /** The arguments of the pushes, in the order of their exchanges. */
  function PushOrder<T>(steps: seq<Step<T>>): (r: seq<T>) {
    if steps == [] then []
    else
      var front, step := steps[..|steps| - 1], steps[|steps| - 1];
      if step.Exchange? && LastArgument(front, step.p).Some? then PushOrder(front) + [LastArgument(front, step.p).value]
      else PushOrder(front)
  }

  /** The list holds what was pushed. */
  ghost predicate Faithful<T>(q: Queue<T>, steps: seq<Step<T>>) {
    |q.order| > 0 && Values(q.order, |q.order| - 1) == PushOrder(steps) &&
    forall p: nat :: p < |q.producers| && q.producers[p].Holding? ==> LastArgument(steps, p) == Some(q.producers[p].value)
  }

  lemma FaithfulStep<T>(q: Queue<T>, steps: seq<Step<T>>, step: Step<T>)
    requires Faithful(q, steps) && Enabled(q, step)
    ensures Faithful(Apply(q, step), steps + [step])
  {
    assert (steps + [step])[..|steps|] == steps;
    var r := Apply(q, step);
    if step.Exchange? { ValuesFrame(q.order, r.order, |q.order| - 1); }
  }

  lemma NothingPushed<T>(q: Queue<T>)
    requires Initial(q)
    ensures Faithful(q, [])
  {
  }

  lemma {:induction false} RunIsFaithful<T>(q: Queue<T>, steps: seq<Step<T>>)
    requires Initial(q) && Runs(q, steps)
    ensures Faithful(Final(q, steps), steps)
    decreases |steps|
  {
    if steps == [] {
      NothingPushed(q);
    } else {
      var n := |steps| - 1;
      RunFront(q, steps);
      RunIsFaithful(q, steps[..n]);
      FaithfulStep(Final(q, steps[..n]), steps[..n], steps[n]);
      assert steps == steps[..n] + [steps[n]];
    }
  }

  /** A producer between its exchange and its link holds a live node that is not the consumer's garbage. */
  predicate PrevAlive<T>(q: Queue<T>) {
    forall p :: 0 <= p < |q.producers| && q.producers[p].Linking? ==>
      q.producers[p].prev in q.nodes && !(q.consumer.Swung? && q.consumer.garbage == q.producers[p].prev)
  }

  /**
    Any number of producers, any interleaving, addresses reused at will: no dead node is ever touched or
    freed again, no producer's `prev` has been freed, and the popped values are a prefix of the arguments of
    the pushes in the order of their exchanges.
  */
  lemma QueueSafety<T>(q: Queue<T>, steps: seq<Step<T>>)
    requires Initial(q) && Runs(q, steps)
    ensures var r := Final(q, steps);
            !r.fault && PrevAlive(r) && r.popped <= PushOrder(steps)
  {
    InitialInv(q);
    RunKeepsInv(q, steps);
    RunIsFaithful(q, steps);
    InvIsSafe(Final(q, steps));
  }

  lemma InvIsSafe<T>(r: Queue<T>)
    requires Inv(r)
    ensures !r.fault && PrevAlive(r) && |r.order| > 0 && r.popped <= Values(r.order, |r.order| - 1)
  {
    ValuesPrefix(r.order, r.base, |r.order| - 1);
    forall p: nat | p < |r.producers| && r.producers[p].Linking?
      ensures r.producers[p].prev in r.nodes && !(r.consumer.Swung? && r.consumer.garbage == r.producers[p].prev)
    {
      assert ProducerOk(r, p);
    }
  }

  /**
    When pop returns nothing: exactly when every exchanged value has been popped, or the producer of the
    oldest one that has not is still between its exchange and its link.
  */
  lemma PopReturnsNothingIff<T>(q: Queue<T>)
    requires Inv(q) && q.consumer.Ready?
    ensures q.tail in q.nodes
    ensures q.nodes[q.tail].next == None <==>
            q.base + 1 == |q.order| ||
            (exists p :: 0 <= p < |q.producers| && q.producers[p].Linking? && q.producers[p].at == q.base + 1)
  {
    assert InList(q, q.base);
    if q.base + 1 < |q.order| {
      assert LinkOk(q, q.base + 1);
      if p: nat :| p < |q.producers| && q.producers[p].Linking? && q.producers[p].at == q.base + 1 {
        assert ProducerOk(q, p);
      }
    }
  }

  // ---------------------------------------------------------------- destruction

  predicate Quiet<T>(q: Queue<T>) {
    q.consumer.Ready? && forall p :: 0 <= p < |q.producers| ==> q.producers[p].Idle?
  }

  lemma {:induction false} RunConcat<T>(q: Queue<T>, a: seq<Step<T>>, b: seq<Step<T>>)
    requires Runs(q, a) && Runs(Final(q, a), b)
    ensures Runs(q, a + b) && Final(q, a + b) == Final(Final(q, a), b)
    decreases |a|
  {
    if a == [] {
      assert a + b == b;
    } else {
      assert (a + b)[1..] == a[1..] + b;
      RunConcat(Apply(q, a[0]), a[1..], b);
    }
  }

  lemma Then<T>(q: Queue<T>, steps: seq<Step<T>>, step: Step<T>)
    requires Runs(q, steps) && Enabled(Final(q, steps), step)
    ensures Runs(q, steps + [step]) && Final(q, steps + [step]) == Apply(Final(q, steps), step)
  {
    assert [step][1..] == [];
    assert Runs(Final(q, steps), [step]);
    RunConcat(q, steps, [step]);
  }

  /** One complete pop of a quiet nonempty queue. */
  lemma PopOne<T>(q: Queue<T>) returns (steps: seq<Step<T>>)
    requires Inv(q) && Quiet(q) && q.base + 1 < |q.order|
    ensures Runs(q, steps)
    ensures var r := Final(q, steps);
            Inv(r) && Quiet(r) && r.base == q.base + 1 && r.order == q.order &&
            r.nodes.Keys == q.nodes.Keys - {q.tail}
  {
    PopReturnsNothingIff(q);
    assert InList(q, q.base) && InList(q, q.base + 1) && LinkOk(q, q.base + 1) && ValueOk(q, q.base + 1);
    var next := q.order[q.base + 1].addr;
    steps := [];
    Then(q, steps, LoadNext);
    steps := steps + [LoadNext];
    assert Final(q, steps) == q.(consumer := SawNext(next));
    Then(q, steps, TakeValue);
    steps := steps + [TakeValue];
    Then(q, steps, ClearValue);
    steps := steps + [ClearValue];
    Then(q, steps, SwingTail);
    steps := steps + [SwingTail];
    Then(q, steps, Delete);
    steps := steps + [Delete];
    RunKeepsInv(q, steps);
  }

  /** With nothing left to pop and nobody pushing, the sentinel is the only node. */
  lemma OnlySentinelLeft<T>(q: Queue<T>)
    requires Inv(q) && Quiet(q) && q.base + 1 == |q.order|
    ensures q.nodes.Keys == {q.tail} && q.nodes - {q.tail} == map[]
    ensures !q.fault && q.popped == Values(q.order, |q.order| - 1)
  {
    assert InList(q, q.base) && EntryOk(q, q.base);
    forall a | a in q.nodes
      ensures a == q.tail
    {
      assert Accounted(q, a);
    }
  }

  /** Popping until pop returns nothing. */
  lemma {:induction false} PopAll<T>(q: Queue<T>) returns (steps: seq<Step<T>>)
    requires Inv(q) && Quiet(q)
    ensures Runs(q, steps)
    ensures var r := Final(q, steps);
            Inv(r) && Quiet(r) && r.order == q.order && r.base + 1 == |r.order|
    decreases |q.order| - q.base
  {
    if q.base + 1 == |q.order| {
      steps := [];
    } else {
      var pop := PopOne(q);
      var rest := PopAll(Final(q, pop));
      RunConcat(q, pop, rest);
      steps := pop + rest;
    }
  }

  /**
    The destructor, after any run that left the queue quiet: pop until nothing is left, then delete the
    sentinel. Each deletion removes a live node, everything pushed has been popped in order, and no node remains.
  */
  lemma DestructorFreesAll<T>(q: Queue<T>, pushes: seq<Step<T>>) returns (steps: seq<Step<T>>)
    requires Initial(q) && Runs(q, pushes) && Quiet(Final(q, pushes))
    ensures Runs(Final(q, pushes), steps)
    ensures var r := Final(Final(q, pushes), steps);
            !r.fault && r.popped == PushOrder(pushes) && r.tail in r.nodes && r.nodes - {r.tail} == map[]
  {
    InitialInv(q);
    RunKeepsInv(q, pushes);
    RunIsFaithful(q, pushes);
    steps := PopAll(Final(q, pushes));
    OnlySentinelLeft(Final(Final(q, pushes), steps));
  }

  // ---------------------------------------------------------------- a pop that misses a linked value

  /** pop finds nothing although a value behind the oldest one is already linked. */
  predicate Misses<T(==)>(q: Queue<T>) {
    q.consumer.Ready? && q.tail in q.nodes && q.nodes[q.tail].next.None? && q.popped == [] &&
    |q.order| == 3 && q.order[1].addr in q.nodes && q.nodes[q.order[1].addr].next == Some(q.order[2].addr)
  }

  /** Producer 0 has exchanged but not linked; producer 1 has pushed completely. */
  function Overtaken<T>(a: Addr, b: Addr, v: T, w: T): (steps: seq<Step<T>>) {
    [Allocate(0, a, v), Exchange(0), Allocate(1, b, w), Exchange(1), Link(1)]
  }

  lemma TwoExchanges<T>(q: Queue<T>, a: Addr, b: Addr, v: T, w: T) returns (steps: seq<Step<T>>)
    requires Initial(q) && 2 <= |q.producers| && a != b && a != q.head && b != q.head
    ensures steps == [Allocate(0, a, v), Exchange(0), Allocate(1, b, w), Exchange(1)] && Runs(q, steps)
    ensures var r := Final(q, steps);
            |r.producers| == |q.producers| && r.producers[1] == Linking(b, a, 2) && r.consumer.Ready? && r.popped == [] &&
            r.tail == q.head && r.nodes == map[q.head := Node(None, None), a := Node(None, Some(v)), b := Node(None, Some(w))] &&
            r.order == [Entry(q.head, 0, None), Entry(a, 0, Some(v)), Entry(b, 1, Some(w))]
  {
    steps := [];
    Then(q, steps, Allocate(0, a, v));
    steps := steps + [Allocate(0, a, v)];
    Then(q, steps, Exchange(0));
    steps := steps + [Exchange(0)];
    assert Final(q, steps).head == a && Final(q, steps).order == [Entry(q.head, 0, None), Entry(a, 0, Some(v))];
    Then(q, steps, Allocate(1, b, w));
    steps := steps + [Allocate(1, b, w)];
    Then(q, steps, Exchange(1));
    steps := steps + [Exchange(1)];
  }

  lemma PopMissesLinkedValue<T>(q: Queue<T>, a: Addr, b: Addr, v: T, w: T)
    requires Initial(q) && 2 <= |q.producers| && a != b && a != q.head && b != q.head
    ensures Runs(q, Overtaken(a, b, v, w))
    ensures Misses(Final(q, Overtaken(a, b, v, w))) && PushOrder(Overtaken(a, b, v, w)) == [v, w]
  {
    var steps := TwoExchanges(q, a, b, v, w);
    Then(q, steps, Link(1));
    assert steps + [Link(1)] == Overtaken(a, b, v, w);
    RunIsFaithful(q, Overtaken(a, b, v, w));
    var order := Final(q, Overtaken(a, b, v, w)).order;
    assert Values(order, 1) == [v] && Values(order, 2) == Values(order, 1) + [w];
  }
}
