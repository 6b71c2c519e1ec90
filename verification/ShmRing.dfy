/**
  The shared-memory inbox of src/transport/shm_transport.cpp as a transition system: any number of
  producers and one consumer, one step per access to the shared segment, interleaved in any order.

  `head` and `tail` are the 32-bit registers of the segment. Everything the code tests, it tests on
  those registers. `sent`, `taken` and `delivered`, and the counts `at` and `behind` kept beside a
  producer's registers, are history: no step reads them to decide anything.
*/
module ShmRing {
  import opened Words
  import opened Modular

  const SPIN_LIMIT := 100000

  datatype SlotState = Empty | Ready
  datatype Slot = Slot(state: SlotState, len: uint32, bytes: Bytes)

  /** One successful reservation of an index: whose message it is and whether it was marked READY. */
  datatype Reservation = Reservation(msg: Bytes, owner: nat, published: bool)

  /** Where a producer is inside writeToRegion (gather = false) or writevToRegion (gather = true). */
  datatype Producer =
    | Idle
    | Reserving(msg: Bytes, gather: bool)
    | SawHead(msg: Bytes, gather: bool, head: uint32, at: nat)
    | SawTail(msg: Bytes, gather: bool, head: uint32, at: nat, tail: uint32, behind: nat)
    | Probing(msg: Bytes, gather: bool, idx: uint32, at: nat, spin: nat)
    | Filling(msg: Bytes, gather: bool, idx: uint32, at: nat, copied: nat, lenSet: bool)
    | GivingUp(idx: uint32, at: nat, lenCleared: bool)

  /** Where the consumer is inside recvLoop. */
  datatype Consumer =
    | Waiting
    | SawOwnTail(tail: uint32)
    | Checking(tail: uint32)
    | Loading(tail: uint32)
    | Copying(tail: uint32, len: uint32, buf: Bytes)
    | Emptied(tail: uint32, buf: Bytes)
    | Delivering(buf: Bytes)

  datatype Ring = Ring(
    cap: nat, room: nat,
    head: uint32, tail: uint32, slots: seq<Slot>,
    producers: seq<Producer>, consumer: Consumer,
    sent: seq<Reservation>, taken: nat, delivered: seq<Bytes>)

  /** The slot an index register addresses. */
  function SlotIndex(cap: nat, idx: uint32): (k: nat)
    requires 0 < cap
    ensures k < cap
  {
    idx % cap
  }

  /** The slot the i-th reservation ever made gets. */
  function SlotOf(cap: nat, i: nat): (k: nat)
    requires 0 < cap
    ensures k < cap
  {
    SlotIndex(cap, Wrap(i))
  }

  // ---------------------------------------------------------------- steps

  datatype Step =
    | Begin(p: nat, msg: Bytes, gather: bool)
    | LoadHead(p: nat)
    | LoadTail(p: nat)
    | RefuseFull(p: nat)
    | CompareExchange(p: nat, spurious: bool)
    | Probe(p: nat)
    | StoreLen(p: nat)
    | CopyByte(p: nat)
    | Publish(p: nat)
    | ClearLen(p: nat)
    | PublishNothing(p: nat)
    | TakeTail
    | TakeHead
    | CheckReady
    | TakeLen
    | TakeByte
    | StoreEmpty
    | StoreTail
    | Deliver

  predicate Sized(s: Ring) {
    0 < s.cap < WORD && |s.slots| == s.cap && s.room < WORD &&
    (forall k :: 0 <= k < s.cap ==> |s.slots[k].bytes| == s.room)
  }

  /** The step is the next access of the thread it names. */
  predicate Enabled(s: Ring, step: Step)
    requires Sized(s)
  {
    match step
    case Begin(p, msg, _) => p < |s.producers| && s.producers[p].Idle? && |msg| <= s.room
    case LoadHead(p) => p < |s.producers| && s.producers[p].Reserving?
    case LoadTail(p) => p < |s.producers| && s.producers[p].SawHead?
    case RefuseFull(p) => p < |s.producers| && s.producers[p].SawTail? && LooksFull(s.cap, s.producers[p])
    case CompareExchange(p, _) => p < |s.producers| && s.producers[p].SawTail? && !LooksFull(s.cap, s.producers[p])
    case Probe(p) => p < |s.producers| && s.producers[p].Probing?
    case StoreLen(p) => p < |s.producers| && s.producers[p].Filling? && !s.producers[p].lenSet &&
                        (s.producers[p].gather ==> s.producers[p].copied >= |s.producers[p].msg|)
    case CopyByte(p) => p < |s.producers| && s.producers[p].Filling? &&
                        s.producers[p].copied < |s.producers[p].msg| && s.producers[p].copied < s.room &&
                        (s.producers[p].gather || s.producers[p].lenSet)
    case Publish(p) => p < |s.producers| && s.producers[p].Filling? &&
                       s.producers[p].copied >= |s.producers[p].msg| && s.producers[p].lenSet
    case ClearLen(p) => p < |s.producers| && s.producers[p].GivingUp? && !s.producers[p].lenCleared
    case PublishNothing(p) => p < |s.producers| && s.producers[p].GivingUp? && s.producers[p].lenCleared
    case TakeTail => s.consumer.Waiting?
    case TakeHead => s.consumer.SawOwnTail?
    case CheckReady => s.consumer.Checking?
    case TakeLen => s.consumer.Loading?
    case TakeByte => s.consumer.Copying? && |s.consumer.buf| < s.consumer.len && |s.consumer.buf| < s.room
    case StoreEmpty => s.consumer.Copying? && |s.consumer.buf| >= s.consumer.len
    case StoreTail => s.consumer.Emptied?
    case Deliver => s.consumer.Delivering?
  }

  /** `head - tail >= cap` on the registers the producer loaded. */
  predicate LooksFull(cap: nat, pr: Producer)
    requires pr.SawTail?
  {
    Minus(pr.head, pr.tail) >= cap
  }

  function WithProducer(s: Ring, p: nat, pr: Producer): (t: Ring)
    requires p < |s.producers|
  {
    s.(producers := s.producers[p := pr])
  }

  function WithSlot(s: Ring, k: nat, slot: Slot): (t: Ring)
    requires k < |s.slots|
  {
    s.(slots := s.slots[k := slot])
  }

  function MarkPublished(sent: seq<Reservation>, i: nat): (r: seq<Reservation>) {
    if i < |sent| then sent[i := sent[i].(published := true)] else sent
  }

  function Apply(s: Ring, step: Step): (t: Ring)
    requires Sized(s) && Enabled(s, step)
  {
    match step
    case Begin(p, msg, gather) => WithProducer(s, p, Reserving(msg, gather))
    case LoadHead(p) =>
      var pr := s.producers[p];
      WithProducer(s, p, SawHead(pr.msg, pr.gather, s.head, |s.sent|))
    case LoadTail(p) =>
      var pr := s.producers[p];
      WithProducer(s, p, SawTail(pr.msg, pr.gather, pr.head, pr.at, s.tail, s.taken))
    case RefuseFull(p) => WithProducer(s, p, Idle)
    case CompareExchange(p, spurious) =>
      var pr := s.producers[p];
      if s.head == pr.head && !spurious then
        WithProducer(s, p, Probing(pr.msg, pr.gather, pr.head, |s.sent|, 0))
        .(head := Wrap(pr.head + 1), sent := s.sent + [Reservation(pr.msg, p, false)])
      else
        WithProducer(s, p, Reserving(pr.msg, pr.gather))
    case Probe(p) =>
      var pr := s.producers[p];
      WithProducer(s, p,
        if s.slots[SlotIndex(s.cap, pr.idx)].state.Empty? then Filling(pr.msg, pr.gather, pr.idx, pr.at, 0, false)
        else if pr.spin + 1 < SPIN_LIMIT then pr.(spin := pr.spin + 1)
        else GivingUp(pr.idx, pr.at, false))
    case StoreLen(p) =>
      var pr := s.producers[p];
      var k := SlotIndex(s.cap, pr.idx);
      WithSlot(WithProducer(s, p, pr.(lenSet := true)), k, s.slots[k].(len := Wrap(|pr.msg|)))
    case CopyByte(p) =>
      var pr := s.producers[p];
      var k := SlotIndex(s.cap, pr.idx);
      WithSlot(WithProducer(s, p, pr.(copied := pr.copied + 1)), k,
               s.slots[k].(bytes := s.slots[k].bytes[pr.copied := pr.msg[pr.copied]]))
    case Publish(p) =>
      var pr := s.producers[p];
      var k := SlotIndex(s.cap, pr.idx);
      WithSlot(WithProducer(s, p, Idle), k, s.slots[k].(state := Ready)).(sent := MarkPublished(s.sent, pr.at))
    case ClearLen(p) =>
      var pr := s.producers[p];
      var k := SlotIndex(s.cap, pr.idx);
      WithSlot(WithProducer(s, p, pr.(lenCleared := true)), k, s.slots[k].(len := 0))
    case PublishNothing(p) =>
      var pr := s.producers[p];
      var k := SlotIndex(s.cap, pr.idx);
      WithSlot(WithProducer(s, p, Idle), k, s.slots[k].(state := Ready))
    case TakeTail => s.(consumer := SawOwnTail(s.tail))
    case TakeHead => s.(consumer := if s.consumer.tail == s.head then Waiting else Checking(s.consumer.tail))
    case CheckReady =>
      s.(consumer := if s.slots[SlotIndex(s.cap, s.consumer.tail)].state.Ready? then Loading(s.consumer.tail) else Waiting)
    case TakeLen =>
      var len := s.slots[SlotIndex(s.cap, s.consumer.tail)].len;
      s.(consumer := Copying(s.consumer.tail, if len > s.room then 0 else len, []))
    case TakeByte =>
      var b := s.slots[SlotIndex(s.cap, s.consumer.tail)].bytes[|s.consumer.buf|];
      s.(consumer := Copying(s.consumer.tail, s.consumer.len, s.consumer.buf + [b]))
    case StoreEmpty =>
      var k := SlotIndex(s.cap, s.consumer.tail);
      WithSlot(s, k, s.slots[k].(state := Empty)).(consumer := Emptied(s.consumer.tail, s.consumer.buf))
    case StoreTail =>
      s.(tail := Wrap(s.consumer.tail + 1), taken := s.taken + 1, consumer := Delivering(s.consumer.buf))
    case Deliver =>
      s.(consumer := Waiting,
         delivered := if |s.consumer.buf| > 0 then s.delivered + [s.consumer.buf] else s.delivered)
  }

  /** A freshly zeroed inbox with `n` idle producers. */
  predicate Initial(s: Ring) {
    Sized(s) && s.head == 0 && s.tail == 0 &&
    (forall k :: 0 <= k < s.cap ==> s.slots[k].state.Empty?) &&
    (forall p :: 0 <= p < |s.producers| ==> s.producers[p].Idle?) &&
    s.consumer.Waiting? && s.sent == [] && s.taken == 0 && s.delivered == []
  }

  // ---------------------------------------------------------------- geometry

  /**
    Indexes within one ring length of each other address different slots, for all counts below n.
    It holds for every count when the slot count divides 2^32, and for any slot count below the first wrap.
  */
  predicate Apart(cap: nat, n: nat) {
    0 < cap < WORD && (WORD % cap == 0 || n <= WORD)
  }

  lemma DividingCount(cap: nat, i: nat)
    requires 0 < cap && WORD % cap == 0
    ensures SlotOf(cap, i) == i % cap
  {
    var q, w := WORD / cap, i / WORD;
    assert WORD == q * cap;
    assert i == Wrap(i) + (w * q) * cap by {
      assert w * WORD == w * (q * cap) == (w * q) * cap;
    }
    ModPlusMultiple(Wrap(i), w * q, cap);
  }

  lemma SlotsApart(cap: nat, i: nat, j: nat, n: nat)
    requires Apart(cap, n) && i < j < i + cap && j < n
    ensures SlotOf(cap, i) != SlotOf(cap, j)
  {
    ModApart(i, j, cap);
    if WORD % cap == 0 {
      DividingCount(cap, i);
      DividingCount(cap, j);
    }
  }

  /** With any other slot count the last multiple of it before the wrap and the wrap share slot 0. */
  lemma SlotsCollideAtWrap(cap: nat)
    requires 0 < cap < WORD && WORD % cap != 0
    ensures var i := WORD - WORD % cap;
            0 <= i < WORD < i + cap && SlotOf(cap, i) == SlotOf(cap, WORD) == 0
  {
    DivModUnique(WORD - WORD % cap, WORD / cap, cap, 0);
  }

  /** Exactly the slot counts dividing 2^32 keep the slots of every ring length apart for ever. */
  lemma SlotsApartIff(cap: nat)
    requires 0 < cap < WORD
    ensures (forall i: nat, j: nat | i < j < i + cap :: SlotOf(cap, i) != SlotOf(cap, j))
            <==> WORD % cap == 0
  {
    if WORD % cap == 0 {
      forall i: nat, j: nat | i < j < i + cap
        ensures SlotOf(cap, i) != SlotOf(cap, j)
      {
        SlotsApart(cap, i, j, j + 1);
      }
    } else {
      SlotsCollideAtWrap(cap);
    }
  }
}
