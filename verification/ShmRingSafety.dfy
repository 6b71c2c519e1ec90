/** What every step of the inbox keeps, and what follows for whole runs. */
module ShmRingSafety {
  import opened Words
  import opened Modular
  import opened ShmRing

  // ---------------------------------------------------------------- the invariant

  ghost predicate Counters(s: Ring) {
    Sized(s) && s.head == Wrap(|s.sent|) && s.tail == Wrap(s.taken) &&
    s.taken <= |s.sent| <= s.taken + s.cap
  }

  /** Index i is reserved and its slot not yet handed back. */
  predicate InRing(s: Ring, i: nat) {
    s.taken <= i < |s.sent|
  }

  function SlotAt(s: Ring, i: nat): Slot
    requires Sized(s)
  {
    s.slots[SlotOf(s.cap, i)]
  }

  predicate Holds(pr: Producer, i: nat, msg: Bytes) {
    (pr.Probing? || pr.Filling?) && pr.at == i && pr.idx == Wrap(i) && pr.msg == msg
  }

  /** What a producer knows at each of its program points. GivingUp is never reached. */
  ghost predicate ProducerOk(s: Ring, p: nat)
    requires Counters(s) && p < |s.producers|
  {
    match s.producers[p]
    case Idle => true
    case Reserving(msg, _) => |msg| <= s.room
    case SawHead(msg, _, head, at) => |msg| <= s.room && HeadSeen(s, head, at)
    case SawTail(msg, _, head, at, tail, behind) =>
      |msg| <= s.room && HeadSeen(s, head, at) &&
      tail == Wrap(behind) && behind <= s.taken && at <= behind + s.cap
    case Probing(msg, _, idx, at, spin) =>
      idx == Wrap(at) && InRing(s, at) && s.sent[at] == Reservation(msg, p, false) && spin == 0 && |msg| <= s.room
    case Filling(msg, _, idx, at, copied, lenSet) =>
      idx == Wrap(at) && InRing(s, at) && s.sent[at] == Reservation(msg, p, false) && |msg| <= s.room &&
      copied <= |msg| && SlotAt(s, at).bytes[..copied] == msg[..copied] &&
      (lenSet ==> SlotAt(s, at).len == |msg|)
    case GivingUp(_, _, _) => false
  }

  predicate HeadSeen(s: Ring, head: uint32, at: nat) {
    head == Wrap(at) && at <= |s.sent| && at <= s.taken + s.cap
  }

  predicate Carries(slot: Slot, msg: Bytes) {
    slot.len == |msg| <= |slot.bytes| && slot.bytes[..|msg|] == msg
  }

  /** A published index sits READY in its slot; an unpublished one has an EMPTY slot and a producer at work on it. */
  ghost predicate IndexOk(s: Ring, i: nat)
    requires Counters(s) && InRing(s, i)
  {
    var r := s.sent[i];
    if r.published then
      (SlotAt(s, i).state.Ready? || (i == s.taken && s.consumer.Emptied?)) && Carries(SlotAt(s, i), r.msg)
    else
      SlotAt(s, i).state.Empty? && r.owner < |s.producers| && Holds(s.producers[r.owner], i, r.msg)
  }

  /** A READY slot belongs to some index in the ring. */
  ghost predicate ReadyOk(s: Ring, k: nat)
    requires Counters(s) && k < s.cap
  {
    s.slots[k].state.Ready? ==> exists i: nat :: InRing(s, i) && SlotOf(s.cap, i) == k
  }

  ghost predicate ConsumerOk(s: Ring)
    requires Counters(s)
  {
    match s.consumer
    case Waiting => true
    case SawOwnTail(tail) => tail == s.tail
    case Checking(tail) => tail == s.tail && s.taken < |s.sent|
    case Loading(tail) => tail == s.tail && Available(s)
    case Copying(tail, len, buf) =>
      tail == s.tail && Available(s) && len == |s.sent[s.taken].msg| &&
      |buf| <= len && buf == s.sent[s.taken].msg[..|buf|]
    case Emptied(tail, buf) =>
      tail == s.tail && s.taken < |s.sent| && s.sent[s.taken].published && buf == s.sent[s.taken].msg &&
      SlotAt(s, s.taken).state.Empty?
    case Delivering(buf) => 0 < s.taken && buf == s.sent[s.taken - 1].msg
  }

  ghost predicate Available(s: Ring)
    requires Counters(s)
  {
    s.taken < |s.sent| && s.sent[s.taken].published && SlotAt(s, s.taken).state.Ready?
  }

  /** The nonempty messages among the first n reservations, in reservation order. */
  function Payloads(sent: seq<Reservation>, n: nat): (r: seq<Bytes>)
    requires n <= |sent|
  {
    if n == 0 then []
    else Payloads(sent, n - 1) + (if |sent[n - 1].msg| > 0 then [sent[n - 1].msg] else [])
  }

  function InHand(c: Consumer): (r: seq<Bytes>) {
    if c.Delivering? && |c.buf| > 0 then [c.buf] else []
  }

  ghost predicate Inv(s: Ring) {
    Counters(s) &&
    (forall p: nat :: p < |s.producers| ==> ProducerOk(s, p)) &&
    (forall i: nat :: InRing(s, i) ==> IndexOk(s, i)) &&
    (forall k: nat :: k < s.cap ==> ReadyOk(s, k)) &&
    (forall i: nat :: i < s.taken ==> s.sent[i].published) &&
    ConsumerOk(s) &&
    s.delivered + InHand(s.consumer) == Payloads(s.sent, s.taken)
  }

  /**
    The one condition on scheduling: a producer does not sleep between loading `head` and its
    compare-exchange while the ring makes 2^32 reservations, so equal registers mean equal counts.
  */
  predicate Timely(s: Ring, step: Step) {
    step.CompareExchange? && step.p < |s.producers| && s.producers[step.p].SawTail? ==>
      |s.sent| < s.producers[step.p].at + WORD
  }

  // ---------------------------------------------------------------- preservation, step by step

  lemma PayloadsFrame(a: seq<Reservation>, b: seq<Reservation>, n: nat)
    requires n <= |a| && n <= |b| && forall i :: 0 <= i < n ==> a[i].msg == b[i].msg
    ensures Payloads(a, n) == Payloads(b, n)
  {
  }

  /** Two indexes in the ring never share a slot. */
  lemma NoSharing(s: Ring, i: nat, j: nat)
    requires Counters(s) && Apart(s.cap, |s.sent|) && InRing(s, i) && InRing(s, j) && i != j
    ensures SlotOf(s.cap, i) != SlotOf(s.cap, j)
  {
    if i < j { SlotsApart(s.cap, i, j, |s.sent|); } else { SlotsApart(s.cap, j, i, |s.sent|); }
  }

  /** Changing one producer's program point changes nothing for anybody else. */
  lemma ProducerMoves(s: Ring, p: nat, pr: Producer)
    requires Inv(s) && p < |s.producers|
    requires ProducerOk(WithProducer(s, p, pr), p)
    requires forall i: nat, msg: Bytes | InRing(s, i) && Holds(s.producers[p], i, msg) :: Holds(pr, i, msg)
    ensures Inv(WithProducer(s, p, pr))
  {
    var t := WithProducer(s, p, pr);
    forall q: nat | q < |t.producers|
      ensures ProducerOk(t, q)
    {
      if q != p { assert ProducerOk(s, q); }
    }
    forall i: nat | InRing(t, i)
      ensures IndexOk(t, i)
    {
      assert InRing(s, i) && IndexOk(s, i);
    }
    forall k: nat | k < t.cap
      ensures ReadyOk(t, k)
    {
      assert ReadyOk(s, k);
      if t.slots[k].state.Ready? {
        var i: nat :| InRing(s, i) && SlotOf(s.cap, i) == k;
        assert InRing(t, i);
      }
    }
  }

  lemma LocalSteps(s: Ring, step: Step)
    requires Inv(s) && Enabled(s, step)
    requires step.Begin? || step.LoadHead? || step.LoadTail? || step.RefuseFull?
    ensures Inv(Apply(s, step))
  {
    assert ProducerOk(s, step.p);
    var t := Apply(s, step);
    ProducerMoves(s, step.p, t.producers[step.p]);
  }

  lemma ProbeStep(s: Ring, p: nat)
    requires Inv(s) && Enabled(s, Probe(p))
    ensures Inv(Apply(s, Probe(p))) && Apply(s, Probe(p)).producers[p].Filling?
  {
    assert ProducerOk(s, p);
    var pr := s.producers[p];
    assert IndexOk(s, pr.at);
    ProducerMoves(s, p, Apply(s, Probe(p)).producers[p]);
  }

  /** A timely winning compare-exchange sees the true head, and there is room. */
  lemma WinnerHasRoom(s: Ring, p: nat)
    requires Inv(s) && Enabled(s, CompareExchange(p, false)) && Timely(s, CompareExchange(p, false))
    requires s.head == s.producers[p].head
    ensures |s.sent| == s.producers[p].at < s.taken + s.cap
  {
    var pr := s.producers[p];
    assert ProducerOk(s, p);
    WrapInjective(|s.sent|, pr.at);
    WrapDiff(pr.at, pr.behind);
    assert 0 <= pr.at - pr.behind <= s.cap;
  }

  /** The slot of the next index is EMPTY whenever there is room. */
  lemma NextSlotEmpty(s: Ring)
    requires Inv(s) && |s.sent| < s.taken + s.cap && Apart(s.cap, |s.sent| + 1)
    ensures SlotAt(s, |s.sent|).state.Empty?
  {
    var k := SlotOf(s.cap, |s.sent|);
    assert ReadyOk(s, k);
    if s.slots[k].state.Ready? {
      var i: nat :| InRing(s, i) && SlotOf(s.cap, i) == k;
      SlotsApart(s.cap, i, |s.sent|, |s.sent| + 1);
    }
  }

  predicate Wins(s: Ring, p: nat) {
    p < |s.producers| && s.producers[p].SawTail? && s.head == s.producers[p].head
  }

  lemma WinKeepsIndexes(s: Ring, p: nat)
    requires Inv(s) && Enabled(s, CompareExchange(p, false)) && Timely(s, CompareExchange(p, false)) && Wins(s, p)
    requires Apart(s.cap, |s.sent| + 1)
    ensures var t := Apply(s, CompareExchange(p, false));
            Counters(t) && (forall q: nat :: q < |t.producers| ==> ProducerOk(t, q)) &&
            (forall i: nat :: InRing(t, i) ==> IndexOk(t, i))
  {
    var t := Apply(s, CompareExchange(p, false));
    assert ProducerOk(s, p);
    WinnerHasRoom(s, p);
    NextSlotEmpty(s);
    WrapAdd(|s.sent|, 1);
    forall q: nat | q < |t.producers|
      ensures ProducerOk(t, q)
    {
      assert ProducerOk(s, q);
    }
    forall i: nat | InRing(t, i)
      ensures IndexOk(t, i)
    {
      if i < |s.sent| { assert IndexOk(s, i); }
    }
  }

  lemma CompareExchangeStep(s: Ring, p: nat, spurious: bool)
    requires Inv(s) && Enabled(s, CompareExchange(p, spurious)) && Timely(s, CompareExchange(p, spurious))
    requires Apart(s.cap, |Apply(s, CompareExchange(p, spurious)).sent|)
    ensures Inv(Apply(s, CompareExchange(p, spurious)))
  {
    var t := Apply(s, CompareExchange(p, spurious));
    if Wins(s, p) && !spurious {
      WinKeepsIndexes(s, p);
      ReadyFrame(s, t);
      PayloadsFrame(s.sent, t.sent, s.taken);
    } else {
      assert ProducerOk(s, p);
      ProducerMoves(s, p, t.producers[p]);
    }
  }

  /** READY slots keep their index when no slot becomes READY and the ring only grows. */
  lemma ReadyFrame(s: Ring, t: Ring)
    requires Counters(s) && Counters(t) && t.cap == s.cap && t.taken == s.taken && |s.sent| <= |t.sent|
    requires forall k: nat :: k < s.cap ==> ReadyOk(s, k)
    requires forall k: nat :: k < s.cap && t.slots[k].state.Ready? ==> s.slots[k].state.Ready?
    ensures forall k: nat :: k < t.cap ==> ReadyOk(t, k)
  {
    forall k: nat | k < t.cap
      ensures ReadyOk(t, k)
    {
      assert ReadyOk(s, k);
      if t.slots[k].state.Ready? {
        var i: nat :| InRing(s, i) && SlotOf(s.cap, i) == k;
        assert InRing(t, i);
      }
    }
  }

  /** Writing length or bytes of the slot a producer holds disturbs no other index. */
  lemma HolderWrites(s: Ring, p: nat, pr: Producer, slot: Slot)
    requires Inv(s) && Apart(s.cap, |s.sent|) && p < |s.producers| && s.producers[p].Filling?
    requires pr.Filling? && Holds(pr, s.producers[p].at, s.producers[p].msg)
    requires slot.state.Empty? && |slot.bytes| == s.room
    requires pr.copied <= |pr.msg| <= s.room && slot.bytes[..pr.copied] == pr.msg[..pr.copied] && (pr.lenSet ==> slot.len == |pr.msg|)
    ensures Inv(WithSlot(WithProducer(s, p, pr), SlotIndex(s.cap, pr.idx), slot))
  {
    assert ProducerOk(s, p);
    var t := WithSlot(WithProducer(s, p, pr), SlotIndex(s.cap, pr.idx), slot);
    assert IndexOk(s, pr.at);
    forall q: nat | q < |t.producers|
      ensures ProducerOk(t, q)
    {
      assert ProducerOk(s, q);
      if q != p && s.producers[q].Filling? {
        NoSharing(s, pr.at, s.producers[q].at);
      }
    }
    forall i: nat | InRing(t, i)
      ensures IndexOk(t, i)
    {
      assert IndexOk(s, i);
      if i != pr.at { NoSharing(s, pr.at, i); }
    }
    ReadyFrame(s, t);
    ConsumerFrame(s, t, pr.at);
  }

  /** What a producer that fills a slot can count on. */
  lemma HolderKnows(s: Ring, p: nat)
    requires Inv(s) && p < |s.producers| && s.producers[p].Filling?
    ensures var pr := s.producers[p]; var slot := s.slots[SlotIndex(s.cap, pr.idx)];
            Holds(pr, pr.at, pr.msg) && slot.state.Empty? && |slot.bytes| == s.room < WORD &&
            pr.copied <= |pr.msg| <= s.room && slot.bytes[..pr.copied] == pr.msg[..pr.copied] && (pr.lenSet ==> slot.len == |pr.msg|)
  {
    assert ProducerOk(s, p);
    assert IndexOk(s, s.producers[p].at);
  }

  lemma StoreLenIs(s: Ring, p: nat)
    requires Sized(s) && Enabled(s, StoreLen(p))
    ensures var pr := s.producers[p]; var k := SlotIndex(s.cap, pr.idx);
            Apply(s, StoreLen(p)) == WithSlot(WithProducer(s, p, pr.(lenSet := true)), k, s.slots[k].(len := Wrap(|pr.msg|)))
  {
  }

  lemma StoreLenStep(s: Ring, p: nat)
    requires Inv(s) && Apart(s.cap, |s.sent|) && Enabled(s, StoreLen(p))
    ensures Inv(Apply(s, StoreLen(p)))
  {
    var pr := s.producers[p];
    HolderKnows(s, p);
    WrapSmall(|pr.msg|);
    StoreLenIs(s, p);
    HolderWrites(s, p, pr.(lenSet := true), s.slots[SlotIndex(s.cap, pr.idx)].(len := Wrap(|pr.msg|)));
  }

  lemma CopyByteStep(s: Ring, p: nat)
    requires Inv(s) && Apart(s.cap, |s.sent|) && Enabled(s, CopyByte(p))
    ensures Inv(Apply(s, CopyByte(p)))
  {
    var pr := s.producers[p];
    var slot := s.slots[SlotIndex(s.cap, pr.idx)];
    HolderKnows(s, p);
    var bytes := slot.bytes[pr.copied := pr.msg[pr.copied]];
    assert bytes[..pr.copied + 1] == slot.bytes[..pr.copied] + [pr.msg[pr.copied]] == pr.msg[..pr.copied + 1];
    HolderWrites(s, p, pr.(copied := pr.copied + 1), slot.(bytes := bytes));
  }

  /** The consumer's knowledge survives changes to slots other than the one at its tail. */
  lemma ConsumerFrame(s: Ring, t: Ring, at: nat)
    requires Inv(s) && Counters(t) && Apart(s.cap, |s.sent|) && InRing(s, at) && !s.sent[at].published
    requires t.cap == s.cap && t.tail == s.tail && t.taken == s.taken && t.consumer == s.consumer && |t.sent| == |s.sent|
    requires forall i: nat :: i < |s.sent| && i != at ==> t.sent[i] == s.sent[i]
    requires t.sent[at].msg == s.sent[at].msg
    requires forall k: nat :: k < s.cap && k != SlotOf(s.cap, at) ==> t.slots[k] == s.slots[k]
    requires t.slots[SlotOf(s.cap, at)].state.Empty? || !s.consumer.Emptied? || at != s.taken
    ensures ConsumerOk(t)
    ensures t.delivered == s.delivered ==> t.delivered + InHand(t.consumer) == Payloads(t.sent, t.taken)
  {
    if s.taken < |s.sent| && at != s.taken {
      NoSharing(s, at, s.taken);
    }
    PayloadsFrame(s.sent, t.sent, s.taken);
  }

  lemma PublishKeepsIndexes(s: Ring, p: nat)
    requires Inv(s) && Apart(s.cap, |s.sent|) && Enabled(s, Publish(p))
    ensures var t := Apply(s, Publish(p));
            Counters(t) && (forall q: nat :: q < |t.producers| ==> ProducerOk(t, q)) &&
            (forall i: nat :: InRing(t, i) ==> IndexOk(t, i))
  {
    var t := Apply(s, Publish(p));
    assert ProducerOk(s, p);
    var at := s.producers[p].at;
    var msg := s.producers[p].msg;
    assert IndexOk(s, at);
    assert Carries(SlotAt(t, at), msg) by {
      assert msg == msg[..|msg|];
    }
    forall q: nat | q < |t.producers|
      ensures ProducerOk(t, q)
    {
      assert ProducerOk(s, q);
      if q != p && s.producers[q].Filling? {
        NoSharing(s, at, s.producers[q].at);
      }
    }
    forall i: nat | InRing(t, i)
      ensures IndexOk(t, i)
    {
      assert IndexOk(s, i);
      if i != at { NoSharing(s, at, i); }
    }
  }

  lemma PublishKeepsReady(s: Ring, p: nat)
    requires Inv(s) && Apart(s.cap, |s.sent|) && Enabled(s, Publish(p))
    ensures var t := Apply(s, Publish(p)); Counters(t) && forall k: nat :: k < t.cap ==> ReadyOk(t, k)
  {
    var t := Apply(s, Publish(p));
    PublishKeepsIndexes(s, p);
    assert ProducerOk(s, p);
    var at := s.producers[p].at;
    forall k: nat | k < t.cap
      ensures ReadyOk(t, k)
    {
      assert ReadyOk(s, k);
      if k == SlotOf(s.cap, at) {
        assert InRing(t, at);
      } else if t.slots[k].state.Ready? {
        var i: nat :| InRing(s, i) && SlotOf(s.cap, i) == k;
        assert InRing(t, i);
      }
    }
  }

  lemma PublishStep(s: Ring, p: nat)
    requires Inv(s) && Apart(s.cap, |s.sent|) && Enabled(s, Publish(p))
    ensures Inv(Apply(s, Publish(p)))
  {
    PublishKeepsIndexes(s, p);
    PublishKeepsReady(s, p);
    assert ProducerOk(s, p);
    ConsumerFrame(s, Apply(s, Publish(p)), s.producers[p].at);
  }

  /** Nothing but the consumer's own program point has changed. */
  lemma ConsumerAlone(s: Ring, t: Ring)
    requires Inv(s) && !s.consumer.Emptied? && t == s.(consumer := t.consumer) && ConsumerOk(t)
    requires InHand(t.consumer) == InHand(s.consumer)
    ensures Inv(t)
  {
    forall q: nat | q < |t.producers|
      ensures ProducerOk(t, q)
    {
      assert ProducerOk(s, q);
    }
    forall i: nat | InRing(t, i)
      ensures IndexOk(t, i)
    {
      assert IndexOk(s, i);
    }
    ReadyFrame(s, t);
  }

  /** Steps that only move the consumer's program point or its buffer. */
  lemma ConsumerMoves(s: Ring, step: Step)
    requires Inv(s) && Apart(s.cap, |s.sent|) && Enabled(s, step)
    requires step.TakeTail? || step.TakeHead? || step.CheckReady? || step.TakeLen? || step.TakeByte?
    ensures Inv(Apply(s, step))
  {
    var t := Apply(s, step);
    if step.TakeHead? && s.tail != s.head {
      assert s.taken < |s.sent|;
    } else if step.CheckReady? || step.TakeLen? || step.TakeByte? {
      assert IndexOk(s, s.taken);
    }
    ConsumerAlone(s, t);
  }

  lemma StoreEmptyStep(s: Ring)
    requires Inv(s) && Apart(s.cap, |s.sent|) && Enabled(s, StoreEmpty)
    ensures Inv(Apply(s, StoreEmpty))
  {
    var t := Apply(s, StoreEmpty);
    forall q: nat | q < |t.producers|
      ensures ProducerOk(t, q)
    {
      assert ProducerOk(s, q);
      if s.producers[q].Filling? {
        NoSharing(s, s.taken, s.producers[q].at);
      }
    }
    forall i: nat | InRing(t, i)
      ensures IndexOk(t, i)
    {
      assert IndexOk(s, i);
      if i != s.taken { NoSharing(s, s.taken, i); }
    }
    ReadyFrame(s, t);
  }

  lemma TailKeepsIndexes(s: Ring)
    requires Inv(s) && Enabled(s, StoreTail)
    ensures var t := Apply(s, StoreTail);
            Counters(t) && (forall q: nat :: q < |t.producers| ==> ProducerOk(t, q)) &&
            (forall i: nat :: InRing(t, i) ==> IndexOk(t, i))
  {
    var t := Apply(s, StoreTail);
    WrapAdd(s.taken, 1);
    forall q: nat | q < |t.producers|
      ensures ProducerOk(t, q)
    {
      assert ProducerOk(s, q);
    }
    forall i: nat | InRing(t, i)
      ensures IndexOk(t, i)
    {
      assert InRing(s, i) && IndexOk(s, i);
    }
  }

  lemma TailKeepsReady(s: Ring)
    requires Inv(s) && Enabled(s, StoreTail)
    ensures var t := Apply(s, StoreTail); Counters(t) && forall k: nat :: k < t.cap ==> ReadyOk(t, k)
  {
    var t := Apply(s, StoreTail);
    TailKeepsIndexes(s);
    forall k: nat | k < t.cap
      ensures ReadyOk(t, k)
    {
      assert ReadyOk(s, k);
      if t.slots[k].state.Ready? {
        var i: nat :| InRing(s, i) && SlotOf(s.cap, i) == k;
        assert i != s.taken;
        assert InRing(t, i);
      }
    }
  }

  lemma StoreTailStep(s: Ring)
    requires Inv(s) && Enabled(s, StoreTail)
    ensures Inv(Apply(s, StoreTail))
  {
    TailKeepsIndexes(s);
    TailKeepsReady(s);
  }

  lemma DeliverStep(s: Ring)
    requires Inv(s) && Enabled(s, Deliver)
    ensures Inv(Apply(s, Deliver))
  {
    var t := Apply(s, Deliver);
    forall q: nat | q < |t.producers|
      ensures ProducerOk(t, q)
    {
      assert ProducerOk(s, q);
    }
    forall i: nat | InRing(t, i)
      ensures IndexOk(t, i)
    {
      assert IndexOk(s, i);
    }
    ReadyFrame(s, t);
  }

  /** Some producer won its index and still found the slot occupied. */
  predicate Stuck(s: Ring) {
    exists p :: 0 <= p < |s.producers| &&
      ((s.producers[p].Probing? && s.producers[p].spin > 0) || s.producers[p].GivingUp?)
  }

  lemma NeverStuck(s: Ring)
    requires Inv(s)
    ensures !Stuck(s)
  {
    forall p: nat | p < |s.producers|
      ensures !s.producers[p].GivingUp? && (s.producers[p].Probing? ==> s.producers[p].spin == 0)
    {
      assert ProducerOk(s, p);
    }
  }

  /** Every step of every thread keeps the invariant. */
  lemma StepKeepsInv(s: Ring, step: Step)
    requires Inv(s) && Apart(s.cap, |s.sent|) && Enabled(s, step) && Timely(s, step)
    requires Apart(s.cap, |Apply(s, step).sent|)
    ensures Inv(Apply(s, step))
  {
    match step
    case Begin(_, _, _) => LocalSteps(s, step);
    case LoadHead(_) => LocalSteps(s, step);
    case LoadTail(_) => LocalSteps(s, step);
    case RefuseFull(_) => LocalSteps(s, step);
    case CompareExchange(p, spurious) => CompareExchangeStep(s, p, spurious);
    case Probe(p) => ProbeStep(s, p);
    case StoreLen(p) => StoreLenStep(s, p);
    case CopyByte(p) => CopyByteStep(s, p);
    case Publish(p) => PublishStep(s, p);
    case ClearLen(p) => NeverStuck(s);
    case PublishNothing(p) => NeverStuck(s);
    case StoreEmpty => StoreEmptyStep(s);
    case StoreTail => StoreTailStep(s);
    case Deliver => DeliverStep(s);
    case _ => ConsumerMoves(s, step);
  }

  // ---------------------------------------------------------------- whole runs

  /** The steps can be taken one after the other from s. */
  predicate Runs(s: Ring, steps: seq<Step>)
    decreases |steps|
  {
    Sized(s) && (steps == [] || (Enabled(s, steps[0]) && Runs(Apply(s, steps[0]), steps[1..])))
  }

  function Final(s: Ring, steps: seq<Step>): (t: Ring)
    requires Runs(s, steps)
    decreases |steps|
  {
    if steps == [] then s else Final(Apply(s, steps[0]), steps[1..])
  }

  /** Every compare-exchange of the run is timely. */
  predicate AllTimely(s: Ring, steps: seq<Step>)
    requires Runs(s, steps)
    decreases |steps|
  {
    steps == [] || (Timely(s, steps[0]) && AllTimely(Apply(s, steps[0]), steps[1..]))
  }

  lemma {:induction false} SentGrows(s: Ring, steps: seq<Step>)
    requires Runs(s, steps)
    ensures |s.sent| <= |Final(s, steps).sent| && Final(s, steps).cap == s.cap
    decreases |steps|
  {
    if steps != [] { SentGrows(Apply(s, steps[0]), steps[1..]); }
  }

  lemma {:induction false} RunKeepsInv(s: Ring, steps: seq<Step>)
    requires Inv(s) && Runs(s, steps) && AllTimely(s, steps)
    requires Apart(s.cap, |Final(s, steps).sent|)
    ensures Inv(Final(s, steps))
    decreases |steps|
  {
    if steps != [] {
      SentGrows(s, steps);
      SentGrows(Apply(s, steps[0]), steps[1..]);
      StepKeepsInv(s, steps[0]);
      RunKeepsInv(Apply(s, steps[0]), steps[1..]);
    }
  }

  lemma InitialInv(s: Ring)
    requires Initial(s)
    ensures Inv(s)
  {
  }

  predicate Owns(pr: Producer) {
    pr.Probing? || pr.Filling?
  }

  /** The counts behind the registers stay within one ring length. */
  predicate Bounded(t: Ring) {
    t.taken <= |t.sent| <= t.taken + t.cap && t.tail == Wrap(t.taken) && t.head == Wrap(|t.sent|)
  }

  /** Unfinished reservations have slots of their own. */
  predicate OwnSlots(t: Ring) {
    0 < t.cap &&
    forall p, q :: 0 <= p < q < |t.producers| && Owns(t.producers[p]) && Owns(t.producers[q])
      ==> SlotIndex(t.cap, t.producers[p].idx) != SlotIndex(t.cap, t.producers[q].idx)
  }

  /** A producer that won its index finds the slot EMPTY. */
  predicate FindsEmpty(t: Ring) {
    Sized(t) &&
    forall p :: 0 <= p < |t.producers| && t.producers[p].Probing?
      ==> t.slots[SlotIndex(t.cap, t.producers[p].idx)].state.Empty?
  }

  lemma InvIsSafe(t: Ring)
    requires Inv(t) && Apart(t.cap, |t.sent|)
    ensures Bounded(t) && OwnSlots(t) && FindsEmpty(t) && !Stuck(t)
  {
    NeverStuck(t);
    forall p: nat, q: nat | p < q < |t.producers| && Owns(t.producers[p]) && Owns(t.producers[q])
      ensures SlotIndex(t.cap, t.producers[p].idx) != SlotIndex(t.cap, t.producers[q].idx)
    {
      assert ProducerOk(t, p) && ProducerOk(t, q);
      NoSharing(t, t.producers[p].at, t.producers[q].at);
    }
    forall p: nat | p < |t.producers| && t.producers[p].Probing?
      ensures t.slots[SlotIndex(t.cap, t.producers[p].idx)].state.Empty?
    {
      assert ProducerOk(t, p);
      assert IndexOk(t, t.producers[p].at);
    }
  }

  /** Safety, for any number of producers and any interleaving. */
  lemma RingSafety(s: Ring, steps: seq<Step>)
    requires Initial(s) && Runs(s, steps) && AllTimely(s, steps)
    requires Apart(s.cap, |Final(s, steps).sent|)
    ensures var t := Final(s, steps);
            Bounded(t) && OwnSlots(t) && FindsEmpty(t) && !Stuck(t)
  {
    InitialInv(s);
    RunKeepsInv(s, steps);
    SentGrows(s, steps);
    InvIsSafe(Final(s, steps));
  }

  lemma {:induction false} PayloadsPrefix(sent: seq<Reservation>, m: nat, n: nat)
    requires m <= n <= |sent|
    ensures Payloads(sent, m) <= Payloads(sent, n)
    decreases n
  {
    if m < n { PayloadsPrefix(sent, m, n - 1); }
  }

  /** Indexes whose send has returned true. */
  function Accepted(s: Ring): (r: set<nat>) {
    set i: nat | i < |s.sent| && s.sent[i].published
  }

  function ReadySlots(s: Ring): (r: set<nat>)
    requires Sized(s)
  {
    set k: nat | k < s.cap && s.slots[k].state.Ready?
  }

  function Below(n: nat): (r: set<nat>)
    ensures |r| == n
    ensures forall i: nat :: i in r <==> i < n
    decreases n
  {
    if n == 0 then {} else Below(n - 1) + {n - 1}
  }

  /** An injective image has the size of its domain. */
  lemma {:induction false} ImageSize(cap: nat, dom: set<nat>, img: set<nat>)
    requires 0 < cap
    requires forall i, j :: i in dom && j in dom && i != j ==> SlotOf(cap, i) != SlotOf(cap, j)
    requires img == set i | i in dom :: SlotOf(cap, i)
    ensures |img| == |dom|
    decreases dom
  {
    if dom != {} {
      var i :| i in dom;
      ImageSize(cap, dom - {i}, set j | j in dom - {i} :: SlotOf(cap, j));
      assert img == (set j | j in dom - {i} :: SlotOf(cap, j)) + {SlotOf(cap, i)};
    }
  }

  /** The consumer has emptied the slot at its tail but not yet given the index back. */
  function BetweenStores(t: Ring): (r: set<nat>) {
    if t.consumer.Emptied? then {t.taken} else {}
  }

  /** The callbacks made and in hand are the nonempty messages of the consumed reservations, in order. */
  predicate DeliveredInOrder(t: Ring) {
    t.taken <= |t.sent| &&
    t.delivered + InHand(t.consumer) == Payloads(t.sent, t.taken) &&
    t.delivered <= Payloads(t.sent, |t.sent|)
  }

  /** Accepted messages are the consumed ones plus the ones in READY slots. */
  predicate NothingLost(t: Ring) {
    Sized(t) && |Accepted(t)| == t.taken + |ReadySlots(t)| + |BetweenStores(t)|
  }

  /**
    Delivery: in every run callbacks are made for exactly the consumed nonempty messages, in reservation
    order, each once and byte for byte, and no accepted message is lost.
  */
  lemma RingDelivery(s: Ring, steps: seq<Step>)
    requires Initial(s) && Runs(s, steps) && AllTimely(s, steps)
    requires Apart(s.cap, |Final(s, steps).sent|)
    ensures DeliveredInOrder(Final(s, steps)) && NothingLost(Final(s, steps))
  {
    InitialInv(s);
    RunKeepsInv(s, steps);
    SentGrows(s, steps);
    var t := Final(s, steps);
    PayloadsPrefix(t.sent, t.taken, |t.sent|);
    AcceptedCount(t);
  }

  function ReadyIndexes(t: Ring): (r: set<nat>)
    requires Counters(t)
  {
    set i: nat | i < |t.sent| && InRing(t, i) && t.sent[i].published && SlotAt(t, i).state.Ready?
  }

  lemma AcceptedCount(t: Ring)
    requires Inv(t) && Apart(t.cap, |t.sent|)
    ensures NothingLost(t)
  {
    ReadyCount(t);
    AcceptedSplit(t);
    PartsApart(t);
    SizeOfThree(Below(t.taken), ReadyIndexes(t), BetweenStores(t));
  }

  lemma ReadyCount(t: Ring)
    requires Inv(t) && Apart(t.cap, |t.sent|)
    ensures |ReadyIndexes(t)| == |ReadySlots(t)|
  {
    var dom := ReadyIndexes(t);
    ReadyIsImage(t);
    forall i, j | i in dom && j in dom && i != j
      ensures SlotOf(t.cap, i) != SlotOf(t.cap, j)
    {
      NoSharing(t, i, j);
    }
    ImageSize(t.cap, dom, ReadySlots(t));
  }

  lemma PartsApart(t: Ring)
    requires Inv(t)
    ensures Below(t.taken) !! ReadyIndexes(t) && Below(t.taken) !! BetweenStores(t) && ReadyIndexes(t) !! BetweenStores(t)
  {
  }

  lemma SizeOfThree(a: set<nat>, b: set<nat>, c: set<nat>)
    requires a !! b && a !! c && b !! c
    ensures |a + b + c| == |a| + |b| + |c|
  {
  }

  lemma AcceptedSplit(t: Ring)
    requires Inv(t)
    ensures Accepted(t) == Below(t.taken) + ReadyIndexes(t) + BetweenStores(t)
  {
    var parts := Below(t.taken) + ReadyIndexes(t) + BetweenStores(t);
    forall i: nat
      ensures i in Accepted(t) <==> i in parts
    {
      AcceptedMember(t, i);
    }
  }

  lemma AcceptedMember(t: Ring, i: nat)
    requires Inv(t)
    ensures i in Accepted(t) <==> i in Below(t.taken) || i in ReadyIndexes(t) || i in BetweenStores(t)
  {
    if i < |t.sent| { AcceptedOne(t, i); }
  }

  lemma AcceptedOne(t: Ring, i: nat)
    requires Inv(t) && i < |t.sent|
    ensures t.sent[i].published <==> i < t.taken || i in ReadyIndexes(t) || i in BetweenStores(t)
  {
    if t.taken <= i { assert InRing(t, i) && IndexOk(t, i); }
  }

  lemma ReadyIsImage(t: Ring)
    requires Inv(t)
    ensures ReadySlots(t) == set i | i in ReadyIndexes(t) :: SlotOf(t.cap, i)
  {
    forall k | k in ReadySlots(t)
      ensures exists i :: i in ReadyIndexes(t) && SlotOf(t.cap, i) == k
    {
      assert ReadyOk(t, k);
      var i: nat :| InRing(t, i) && SlotOf(t.cap, i) == k;
      assert IndexOk(t, i);
      assert i in ReadyIndexes(t);
    }
  }

  /**
    When a producer is refused. The test is true for a full ring, and also when the consumer has passed
    the head register the producer loaded earlier, however empty the ring is.
  */
  lemma RefusalExact(s: Ring, p: nat)
    requires Inv(s) && p < |s.producers| && s.producers[p].SawTail? && |s.sent| < s.producers[p].at + WORD
    ensures var pr := s.producers[p];
            LooksFull(s.cap, pr) <==> pr.at == pr.behind + s.cap || pr.at < pr.behind <= pr.at + WORD - s.cap
  {
    assert ProducerOk(s, p);
    var pr := s.producers[p];
    WrapDiff(pr.at, pr.behind);
    if pr.at < pr.behind { WrapNegative(pr.at - pr.behind); }
  }
}
