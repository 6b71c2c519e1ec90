/**
  Where the inbox stops being safe. Two conditions were needed: slots that stay apart across the wrap of
  the 32-bit counters, and timely compare-exchanges. Without either one there is a run that breaks the ring.
*/
module ShmRingLimits {
  import opened Words
  import opened Modular
  import opened ShmRing
  import opened ShmRingSafety

  // ---------------------------------------------------------------- composing runs

  lemma {:induction false} RunConcat(s: Ring, a: seq<Step>, b: seq<Step>)
    requires Runs(s, a) && Runs(Final(s, a), b)
    ensures Runs(s, a + b) && Final(s, a + b) == Final(Final(s, a), b)
    ensures AllTimely(s, a) && AllTimely(Final(s, a), b) ==> AllTimely(s, a + b)
    decreases |a|
  {
    if a == [] {
      assert a + b == b;
    } else {
      assert (a + b)[1..] == a[1..] + b;
      RunConcat(Apply(s, a[0]), a[1..], b);
    }
  }

  /** Extends a timely run by one timely step. */
  lemma Then(s: Ring, steps: seq<Step>, step: Step)
    requires Runs(s, steps) && AllTimely(s, steps) && Sized(Final(s, steps))
    requires Enabled(Final(s, steps), step) && Timely(Final(s, steps), step) && Sized(Apply(Final(s, steps), step))
    ensures Runs(s, steps + [step]) && AllTimely(s, steps + [step])
    ensures Final(s, steps + [step]) == Apply(Final(s, steps), step)
  {
    var t := Final(s, steps);
    assert [step][1..] == [];
    assert Runs(t, [step]) && AllTimely(t, [step]);
    RunConcat(s, steps, [step]);
  }

  lemma {:induction false} RunSized(s: Ring, steps: seq<Step>)
    requires Runs(s, steps)
    ensures Sized(Final(s, steps))
    decreases |steps|
  {
    if steps != [] { RunSized(Apply(s, steps[0]), steps[1..]); }
  }

  /** The registers do not look full to a producer that loads both while there is room. */
  lemma RoomShows(s: Ring, pr: Producer)
    requires Inv(s) && |s.sent| < s.taken + s.cap
    requires pr.SawTail? && pr.head == s.head && pr.tail == s.tail
    ensures !LooksFull(s.cap, pr)
  {
    WrapDiff(|s.sent|, s.taken);
  }

  /** s after producer q has sent an empty message without interruption. */
  ghost predicate AfterSend(s: Ring, t: Ring, q: nat) {
    Inv(t) && t.cap == s.cap && t.producers == s.producers && t.consumer == s.consumer && t.taken == s.taken &&
    t.sent == s.sent + [Reservation([], q, true)]
  }

  lemma Reserve(s: Ring, q: nat) returns (steps: seq<Step>)
    requires Inv(s) && q < |s.producers| && s.producers[q].Idle?
    requires |s.sent| < s.taken + s.cap && Apart(s.cap, |s.sent|)
    ensures Runs(s, steps) && AllTimely(s, steps)
    ensures Final(s, steps) ==
            s.(head := Wrap(|s.sent| + 1), sent := s.sent + [Reservation([], q, false)],
               producers := s.producers[q := Probing([], false, s.head, |s.sent|, 0)])
  {
    steps := [];
    Then(s, steps, Begin(q, [], false));
    steps := steps + [Begin(q, [], false)];
    Then(s, steps, LoadHead(q));
    steps := steps + [LoadHead(q)];
    Then(s, steps, LoadTail(q));
    steps := steps + [LoadTail(q)];
    var pr := SawTail([], false, s.head, |s.sent|, s.tail, s.taken);
    assert Final(s, steps) == WithProducer(s, q, pr);
    RoomShows(s, pr);
    Then(s, steps, CompareExchange(q, false));
    steps := steps + [CompareExchange(q, false)];
    WrapAdd(|s.sent|, 1);
  }

  /** The producer that won its index finds the slot EMPTY. */
  lemma ProbeWins(s: Ring, q: nat)
    requires Inv(s) && q < |s.producers| && Apart(s.cap, |s.sent|) && s.producers[q].Probing?
    ensures var pr := s.producers[q];
            Inv(Apply(s, Probe(q))) &&
            Apply(s, Probe(q)) == WithProducer(s, q, Filling(pr.msg, pr.gather, pr.idx, pr.at, 0, false))
  {
    assert ProducerOk(s, q) && IndexOk(s, s.producers[q].at);
    ProbeStep(s, q);
  }

  /** Length and READY of an empty message, one store each. */
  lemma FillsEmpty(s: Ring, q: nat) returns (steps: seq<Step>)
    requires Inv(s) && q < |s.producers| && Apart(s.cap, |s.sent|)
    requires var pr := s.producers[q]; pr.Filling? && pr.msg == [] && !pr.gather && pr.copied == 0 && !pr.lenSet
    ensures Runs(s, steps) && AllTimely(s, steps) && Inv(Final(s, steps))
    ensures var t := Final(s, steps);
            t == s.(producers := s.producers[q := Idle], slots := t.slots, sent := MarkPublished(s.sent, s.producers[q].at))
  {
    steps := [];
    StoreLenStep(s, q);
    Then(s, steps, StoreLen(q));
    steps := steps + [StoreLen(q)];
    PublishStep(Final(s, steps), q);
    Then(s, steps, Publish(q));
    steps := steps + [Publish(q)];
  }

  /** From a won index to the READY store. */
  lemma Finish(s: Ring, q: nat) returns (steps: seq<Step>)
    requires Inv(s) && q < |s.producers| && Apart(s.cap, |s.sent|)
    requires s.producers[q].Probing? && s.producers[q].msg == [] && !s.producers[q].gather
    ensures Runs(s, steps) && AllTimely(s, steps) && Inv(Final(s, steps))
    ensures var t := Final(s, steps);
            t == s.(producers := s.producers[q := Idle], slots := t.slots, sent := MarkPublished(s.sent, s.producers[q].at))
  {
    var none := [];
    ProbeWins(s, q);
    Then(s, none, Probe(q));
    var rest := FillsEmpty(Final(s, none + [Probe(q)]), q);
    RunConcat(s, none + [Probe(q)], rest);
    steps := none + [Probe(q)] + rest;
  }

  lemma SendOne(s: Ring, q: nat) returns (steps: seq<Step>)
    requires Inv(s) && q < |s.producers| && s.producers[q].Idle?
    requires |s.sent| < s.taken + s.cap && Apart(s.cap, |s.sent| + 1)
    ensures Runs(s, steps) && AllTimely(s, steps) && AfterSend(s, Final(s, steps), q)
  {
    var reserve := Reserve(s, q);
    RunKeepsInv(s, reserve);
    var t := Final(s, reserve);
    var finish := Finish(t, q);
    RunConcat(s, reserve, finish);
    steps := reserve + finish;
    assert t.producers[q := Idle] == s.producers;
  }

  /** s after the consumer has taken one empty message without interruption. */
  ghost predicate AfterTake(s: Ring, t: Ring) {
    Inv(t) && t.cap == s.cap && t.producers == s.producers && t.consumer == s.consumer &&
    t.sent == s.sent && t.taken == s.taken + 1
  }

  /** The consumer up to the copy of an empty message. */
  lemma LoadOne(s: Ring) returns (steps: seq<Step>)
    requires Inv(s) && s.consumer.Waiting? && Apart(s.cap, |s.sent|) && Available(s) && s.sent[s.taken].msg == []
    ensures Runs(s, steps) && AllTimely(s, steps)
    ensures Final(s, steps) == s.(consumer := Copying(s.tail, 0, []))
  {
    assert InRing(s, s.taken) && IndexOk(s, s.taken);
    if s.head == s.tail { WrapInjective(|s.sent|, s.taken); }
    steps := [];
    Then(s, steps, TakeTail);
    steps := steps + [TakeTail];
    Then(s, steps, TakeHead);
    steps := steps + [TakeHead];
    Then(s, steps, CheckReady);
    steps := steps + [CheckReady];
    assert Final(s, steps) == s.(consumer := Loading(s.tail));
    Then(s, steps, TakeLen);
    steps := steps + [TakeLen];
  }

  lemma TakeOne(s: Ring) returns (steps: seq<Step>)
    requires Inv(s) && s.consumer.Waiting? && Apart(s.cap, |s.sent|) && Available(s) && s.sent[s.taken].msg == []
    ensures Runs(s, steps) && AllTimely(s, steps) && AfterTake(s, Final(s, steps))
  {
    steps := LoadOne(s);
    RunKeepsInv(s, steps);
    var t1 := Final(s, steps);
    StoreEmptyStep(t1);
    Then(s, steps, StoreEmpty);
    steps := steps + [StoreEmpty];
    var t2 := Final(s, steps);
    StoreTailStep(t2);
    Then(s, steps, StoreTail);
    steps := steps + [StoreTail];
    var t3 := Final(s, steps);
    DeliverStep(t3);
    Then(s, steps, Deliver);
    steps := steps + [Deliver];
  }

  // ---------------------------------------------------------------- long runs

  predicate EmptyMessages(sent: seq<Reservation>) {
    forall i :: 0 <= i < |sent| ==> sent[i].published && sent[i].msg == []
  }

  /** The ring is empty, the consumer waits, and so far only empty messages were sent. */
  ghost predicate Resting(s: Ring, q: nat, n: nat) {
    Inv(s) && q < |s.producers| && s.producers[q].Idle? && s.consumer.Waiting? &&
    |s.sent| == s.taken == n && EmptyMessages(s.sent)
  }

  /** Producer q and the consumer pass empty messages until n have gone through; nobody else moves. */
  lemma {:induction false} Pump(s: Ring, q: nat, m: nat, n: nat) returns (steps: seq<Step>)
    requires Resting(s, q, m) && m <= n && Apart(s.cap, n)
    ensures Runs(s, steps) && AllTimely(s, steps)
    ensures Resting(Final(s, steps), q, n)
    ensures Final(s, steps).producers == s.producers && Final(s, steps).cap == s.cap
    decreases n - m
  {
    if m == n {
      steps := [];
    } else {
      var send := SendOne(s, q);
      var s1 := Final(s, send);
      assert InRing(s1, s1.taken) && IndexOk(s1, s1.taken);
      var take := TakeOne(s1);
      var s2 := Final(s1, take);
      var rest := Pump(s2, q, m + 1, n);
      RunConcat(s1, take, rest);
      RunConcat(s, send, take + rest);
      steps := send + (take + rest);
    }
  }

  /** Producer q sends k more empty messages that nobody takes. */
  lemma {:induction false} Fill(s: Ring, q: nat, k: nat) returns (steps: seq<Step>)
    requires Inv(s) && q < |s.producers| && s.producers[q].Idle?
    requires |s.sent| + k <= s.taken + s.cap && Apart(s.cap, |s.sent| + k)
    ensures Runs(s, steps) && AllTimely(s, steps) && Inv(Final(s, steps))
    ensures var t := Final(s, steps);
            t.producers == s.producers && t.taken == s.taken && |t.sent| == |s.sent| + k && t.cap == s.cap &&
            t.consumer == s.consumer
    ensures forall i: nat :: |s.sent| <= i < |s.sent| + k ==> Final(s, steps).sent[i].published
    ensures s.sent <= Final(s, steps).sent
    decreases k
  {
    if k == 0 {
      steps := [];
    } else {
      var send := SendOne(s, q);
      var s1 := Final(s, send);
      var rest := Fill(s1, q, k - 1);
      RunConcat(s, send, rest);
      steps := send + rest;
    }
  }

  // ---------------------------------------------------------------- the stale compare-exchange

  /** Producer 0 has loaded both registers of the empty ring. */
  lemma FallAsleep(s: Ring) returns (steps: seq<Step>)
    requires Initial(s) && 1 <= |s.producers|
    ensures Runs(s, steps) && AllTimely(s, steps) && Final(s, steps) == WithProducer(s, 0, SawTail([], false, 0, 0, 0, 0))
  {
    steps := [];
    Then(s, steps, Begin(0, [], false));
    steps := steps + [Begin(0, [], false)];
    Then(s, steps, LoadHead(0));
    steps := steps + [LoadHead(0)];
    Then(s, steps, LoadTail(0));
    steps := steps + [LoadTail(0)];
  }

  /** The ring makes fewer than n reservations between a producer's load of head and its compare-exchange. */
  predicate Within(s: Ring, step: Step, n: nat) {
    step.CompareExchange? && step.p < |s.producers| && s.producers[step.p].SawTail? ==>
      |s.sent| < s.producers[step.p].at + n
  }

  predicate AllWithin(s: Ring, steps: seq<Step>, n: nat)
    requires Runs(s, steps)
    decreases |steps|
  {
    steps == [] || (Within(s, steps[0], n) && AllWithin(Apply(s, steps[0]), steps[1..], n))
  }

  /** Timely means within 2^32 reservations. */
  lemma {:induction false} TimelyIsWithin(s: Ring, steps: seq<Step>, n: nat)
    requires Runs(s, steps)
    ensures AllWithin(s, steps, n) && n <= WORD ==> AllTimely(s, steps)
    ensures AllTimely(s, steps) && WORD <= n ==> AllWithin(s, steps, n)
    decreases |steps|
  {
    if steps != [] { TimelyIsWithin(Apply(s, steps[0]), steps[1..], n); }
  }

  lemma {:induction false} WithinConcat(s: Ring, a: seq<Step>, b: seq<Step>, n: nat)
    requires Runs(s, a) && Runs(Final(s, a), b) && AllWithin(s, a, n) && AllWithin(Final(s, a), b, n)
    ensures Runs(s, a + b) && AllWithin(s, a + b, n)
    decreases |a|
  {
    if a == [] {
      assert a + b == b;
    } else {
      assert (a + b)[1..] == a[1..] + b;
      WithinConcat(Apply(s, a[0]), a[1..], b, n);
    }
  }

  /**
    Without timely compare-exchanges the ring overflows, whatever its geometry. Producer 0 loads head and
    tail of the empty ring and sleeps; producer 1 and the consumer pass messages until the 32-bit head
    register is back at the same value with the ring full; then producer 0's compare-exchange succeeds. It
    comes exactly 2^32 reservations after the load, the first moment that is not timely.
  */
  lemma StaleExchangeOverruns(s: Ring) returns (steps: seq<Step>)
    requires Initial(s) && 2 <= |s.producers|
    ensures Runs(s, steps) && AllWithin(s, steps, WORD + 1)
    ensures var t := Final(s, steps); |t.sent| == t.taken + t.cap + 1
  {
    InitialInv(s);
    var sleep := FallAsleep(s);
    RunKeepsInv(s, sleep);
    var s1 := Final(s, sleep);
    var wrap := WrapAround(s1);
    var s2 := Final(s1, wrap);
    var last := [CompareExchange(0, false)];
    LastExchange(s2);
    RunConcat(s1, wrap, last);
    RunConcat(s, sleep, wrap + last);
    TimelyIsWithin(s1, wrap, WORD + 1);
    TimelyIsWithin(s, sleep, WORD + 1);
    WithinConcat(s1, wrap, last, WORD + 1);
    WithinConcat(s, sleep, wrap + last, WORD + 1);
    steps := sleep + (wrap + last);
  }

  /** The sleeper's exchange succeeds on the full ring. */
  lemma LastExchange(s: Ring)
    requires Sized(s) && 1 <= |s.producers| && s.producers[0] == SawTail([], false, 0, 0, 0, 0) && s.head == 0 && |s.sent| == WORD
    ensures var last := [CompareExchange(0, false)];
            Runs(s, last) && AllWithin(s, last, WORD + 1) &&
            |Final(s, last).sent| == WORD + 1 && Final(s, last).taken == s.taken && Final(s, last).cap == s.cap
  {
    var last := [CompareExchange(0, false)];
    assert last[1..] == [];
    assert Sized(Apply(s, last[0]));
  }

  /** While producer 0 sleeps, the head register comes back to 0 and the ring is full. */
  lemma WrapAround(s: Ring) returns (steps: seq<Step>)
    requires Inv(s) && 2 <= |s.producers| && s.producers[0] == SawTail([], false, 0, 0, 0, 0)
    requires Resting(s, 1, 0)
    ensures Runs(s, steps) && AllTimely(s, steps) && Sized(Final(s, steps))
    ensures var t := Final(s, steps);
            t.producers == s.producers && t.head == 0 && |t.sent| == WORD && |t.sent| == t.taken + t.cap
  {
    var pump := Pump(s, 1, 0, WORD - s.cap);
    var s2 := Final(s, pump);
    var fill := Fill(s2, 1, s.cap);
    RunConcat(s, pump, fill);
    steps := pump + fill;
    RunSized(s, steps);
  }

  /**
    A send refused though the ring is empty: producer 0 loads head, another message is sent and taken, producer 0
    loads tail, which has passed the head it saw.
  */
  lemma RefusedWhenEmpty(s: Ring) returns (steps: seq<Step>)
    requires Initial(s) && 2 <= |s.producers|
    ensures Runs(s, steps) && AllTimely(s, steps) && Sized(Final(s, steps)) && Enabled(Final(s, steps), RefuseFull(0))
    ensures var t := Final(s, steps); |t.sent| == t.taken && t.head == t.tail
  {
    InitialInv(s);
    var start := [];
    Then(s, start, Begin(0, [], false));
    Then(s, start + [Begin(0, [], false)], LoadHead(0));
    start := start + [Begin(0, [], false)] + [LoadHead(0)];
    RunKeepsInv(s, start);
    var s1 := Final(s, start);
    var pump := Pump(s1, 1, 0, 1);
    var s2 := Final(s1, pump);
    RunConcat(s, start, pump);
    steps := start + pump;
    Then(s, steps, LoadTail(0));
    steps := steps + [LoadTail(0)];
    assert s2.tail == 1 && s2.producers[0] == SawHead([], false, 0, 0);
  }

  /** A producer whose slot stays READY spins to the limit and gives up. */
  lemma {:induction false} SpinOut(s: Ring, p: nat, k: nat) returns (steps: seq<Step>)
    requires Sized(s) && p < |s.producers| && s.producers[p].Probing? && s.producers[p].spin + k == SPIN_LIMIT && 0 < k
    requires s.slots[SlotIndex(s.cap, s.producers[p].idx)].state.Ready?
    ensures Runs(s, steps) && AllTimely(s, steps)
    ensures p < |Final(s, steps).producers| && Final(s, steps).producers[p].GivingUp? && |steps| == k
    decreases k
  {
    var t := Apply(s, Probe(p));
    if k == 1 {
      steps := [Probe(p)];
      assert steps[1..] == [];
    } else {
      var rest := SpinOut(t, p, k - 1);
      steps := [Probe(p)] + rest;
      assert steps[1..] == rest;
    }
  }

  /** It takes 100000 looks at the slot, no fewer. */
  lemma GivesUpAfter(s: Ring, p: nat) returns (steps: seq<Step>)
    requires Sized(s) && p < |s.producers| && s.producers[p].Probing? && s.producers[p].spin == 0
    requires s.slots[SlotIndex(s.cap, s.producers[p].idx)].state.Ready?
    ensures |steps| == 100_000 && Runs(s, steps) && p < |Final(s, steps).producers| && Final(s, steps).producers[p].GivingUp?
    ensures s.producers[p].spin < 99_999 ==> Apply(s, Probe(p)).producers[p] == s.producers[p].(spin := 1)
  {
    steps := SpinOut(s, p, 100_000);
  }

  /** Giving up overwrites the slot of somebody else: length 0 and READY, its bytes kept, and nothing reserved is marked sent. */
  lemma GivingUpMarks(s: Ring, p: nat)
    requires Sized(s) && p < |s.producers| && s.producers[p].GivingUp? && !s.producers[p].lenCleared
    ensures var k, t := SlotIndex(s.cap, s.producers[p].idx), Apply(s, ClearLen(p));
            Enabled(s, ClearLen(p)) && Sized(t) && Enabled(t, PublishNothing(p)) &&
            Apply(t, PublishNothing(p)) ==
              s.(producers := s.producers[p := Idle], slots := s.slots[k := Slot(Ready, 0, s.slots[k].bytes)])
  {
  }

  /** A refused send leaves no trace. */
  lemma RefusalChangesNothing(s: Ring, p: nat)
    requires Sized(s) && Enabled(s, RefuseFull(p))
    ensures Apply(s, RefuseFull(p)) == s.(producers := s.producers[p := Idle])
  {
  }

  /**
    With a slot count that does not divide 2^32 the give-up branch is reachable, even by timely runs with
    a single producer: index 2^32 wraps to slot 0 while an index before the wrap still sits there.
  */
  lemma GiveUpReached(s: Ring) returns (steps: seq<Step>)
    requires Initial(s) && 1 <= |s.producers| && WORD % s.cap != 0
    ensures Runs(s, steps) && AllTimely(s, steps) && Stuck(Final(s, steps))
  {
    InitialInv(s);
    var r := WORD % s.cap;
    var pump := Pump(s, 0, 0, WORD - r);
    var s1 := Final(s, pump);
    var fill := Fill(s1, 0, r);
    var s2 := Final(s1, fill);
    var reserve := Reserve(s2, 0);
    var s3 := Final(s2, reserve);
    SlotsCollideAtWrap(s.cap);
    assert InRing(s2, WORD - r) && IndexOk(s2, WORD - r);
    var spin := SpinOut(s3, 0, SPIN_LIMIT);
    RunConcat(s2, reserve, spin);
    RunConcat(s1, fill, reserve + spin);
    RunConcat(s, pump, fill + (reserve + spin));
    steps := pump + (fill + (reserve + spin));
  }

  function FreshInbox(cap: nat, room: nat, producers: nat): (s: Ring)
    requires 0 < cap < WORD && room < WORD
    ensures Initial(s)
  {
    Ring(cap, room, 0, 0, seq(cap, _ => Slot(Empty, 0, seq(room, _ => 0))),
         seq(producers, _ => Idle), Waiting, [], 0, [])
  }

  /** No timely run of an inbox with this many slots ever reaches the give-up branch. */
  ghost predicate NeverGivesUp(cap: nat) {
    forall s: Ring, steps: seq<Step> | Initial(s) && s.cap == cap && Runs(s, steps) && AllTimely(s, steps) ::
      !Stuck(Final(s, steps))
  }

  /** The claim that the occupied-slot branch is never taken holds exactly for slot counts dividing 2^32. */
  lemma NeverGivesUpIff(cap: nat)
    requires 0 < cap < WORD
    ensures NeverGivesUp(cap) <==> WORD % cap == 0
  {
    if WORD % cap == 0 {
      forall s: Ring, steps: seq<Step> | Initial(s) && s.cap == cap && Runs(s, steps) && AllTimely(s, steps)
        ensures !Stuck(Final(s, steps))
      {
        RingSafety(s, steps);
      }
    } else {
      var steps := GiveUpReached(FreshInbox(cap, 0, 1));
    }
  }

  /** Every run of an inbox with this many slots and two or more producers, its exchanges within n reservations, ends in such a state. */
  ghost predicate AlwaysWithin(cap: nat, n: nat, good: Ring -> bool) {
    forall s: Ring, steps: seq<Step> | Initial(s) && s.cap == cap && 2 <= |s.producers| && Runs(s, steps) && AllWithin(s, steps, n) ::
      good(Final(s, steps))
  }

  predicate Safe(t: Ring) {
    Bounded(t) && OwnSlots(t) && FindsEmpty(t) && !Stuck(t)
  }

  /**
    How late an exchange may come, for slot counts dividing 2^32: the counts stay within one ring length, and all
    else RingSafety promises holds, in every run whose exchanges come within n reservations exactly if n is at most 2^32.
  */
  lemma SafeWithinIff(cap: nat, n: nat)
    requires 0 < cap < WORD && WORD % cap == 0
    ensures AlwaysWithin(cap, n, Bounded) <==> n <= WORD
    ensures AlwaysWithin(cap, n, Safe) <==> n <= WORD
  {
    if n <= WORD {
      SafeWithin(cap, n);
    } else {
      UnsafeBeyond(cap, n);
    }
  }

  lemma SafeWithin(cap: nat, n: nat)
    requires 0 < cap < WORD && WORD % cap == 0 && n <= WORD
    ensures AlwaysWithin(cap, n, Bounded) && AlwaysWithin(cap, n, Safe)
  {
    forall s: Ring, steps: seq<Step> | Initial(s) && s.cap == cap && Runs(s, steps) && AllWithin(s, steps, n)
      ensures Bounded(Final(s, steps)) && Safe(Final(s, steps))
    {
      TimelyIsWithin(s, steps, n);
      SentGrows(s, steps);
      RingSafety(s, steps);
    }
  }

  lemma UnsafeBeyond(cap: nat, n: nat)
    requires 0 < cap < WORD && n > WORD
    ensures !AlwaysWithin(cap, n, Bounded) && !AlwaysWithin(cap, n, Safe)
  {
    var s := FreshInbox(cap, 0, 2);
    var steps := StaleExchangeOverruns(s);
    StillWithin(s, steps, WORD + 1, n);
    assert !Bounded(Final(s, steps)) && !Safe(Final(s, steps));
  }

  lemma {:induction false} StillWithin(s: Ring, steps: seq<Step>, m: nat, n: nat)
    requires Runs(s, steps) && AllWithin(s, steps, m) && m <= n
    ensures AllWithin(s, steps, n)
    decreases |steps|
  {
    if steps != [] { StillWithin(Apply(s, steps[0]), steps[1..], m, n); }
  }
}
